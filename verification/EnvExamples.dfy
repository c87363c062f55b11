/** The .env.example printer, the parser that reads such a file back, and the comparison between the two. */
module EnvExamples {
  import opened Options
  import opened Texts

  datatype Definition = Definition(key: string, example: string)

  // ---------------------------------------------------------------- printing

  datatype Section =
    | Database | Auth | Email | Scheduling | ThirdPartyApis | Soroban | Indexer
    | FeatureFlags | ApiConfiguration | Server | General

  function SectionOf(key: string): Section {
    if StartsWith(key, "DB_") then Database
    else if StartsWith(key, "JWT_") || key == "FRONTEND_URL" then Auth
    else if StartsWith(key, "SMTP_") then Email
    else if StartsWith(key, "DAILY_WORD_") then Scheduling
    else if key == "MW_API_KEY" || StartsWith(key, "OXFORD_") then ThirdPartyApis
    else if StartsWith(key, "SOROBAN_") then Soroban
    else if StartsWith(key, "INDEXER_") then Indexer
    else if StartsWith(key, "NEXT_PUBLIC_FEATURE_") then FeatureFlags
    else if StartsWith(key, "NEXT_PUBLIC_") then ApiConfiguration
    else if key == "NODE_ENV" || key == "PORT" then Server
    else General
  }

  function Title(section: Section): string {
    match section
    case Database => "Database"
    case Auth => "Auth"
    case Email => "Email (SMTP)"
    case Scheduling => "Scheduling"
    case ThirdPartyApis => "Third-party APIs"
    case Soroban => "Soroban/Stellar"
    case Indexer => "Indexer"
    case FeatureFlags => "Feature flags"
    case ApiConfiguration => "API Configuration"
    case Server => "Server"
    case General => "General"
  }

  function GetSectionForEnvKey(key: string): string {
    Title(SectionOf(key))
  }

  /** The section of each kind of key. */
  lemma SectionTable(key: string)
    ensures StartsWith(key, "DB_") ==> GetSectionForEnvKey(key) == "Database"
    ensures StartsWith(key, "JWT_") || key == "FRONTEND_URL" ==> GetSectionForEnvKey(key) == "Auth"
    ensures StartsWith(key, "SMTP_") ==> GetSectionForEnvKey(key) == "Email (SMTP)"
    ensures StartsWith(key, "DAILY_WORD_") ==> GetSectionForEnvKey(key) == "Scheduling"
    ensures StartsWith(key, "OXFORD_") || key == "MW_API_KEY" ==> GetSectionForEnvKey(key) == "Third-party APIs"
    ensures StartsWith(key, "SOROBAN_") ==> GetSectionForEnvKey(key) == "Soroban/Stellar"
    ensures StartsWith(key, "INDEXER_") ==> GetSectionForEnvKey(key) == "Indexer"
    ensures StartsWith(key, "NEXT_PUBLIC_FEATURE_") ==> GetSectionForEnvKey(key) == "Feature flags"
    ensures StartsWith(key, "NEXT_PUBLIC_") && !StartsWith(key, "NEXT_PUBLIC_FEATURE_") ==>
              GetSectionForEnvKey(key) == "API Configuration"
    ensures key == "NODE_ENV" || key == "PORT" ==> GetSectionForEnvKey(key) == "Server"
  {
    StartsApart(key, "DB_", 'D', 'B');
    StartsApart(key, "JWT_", 'J', 'W');
    StartsApart(key, "SMTP_", 'S', 'M');
    StartsApart(key, "DAILY_WORD_", 'D', 'A');
    StartsApart(key, "OXFORD_", 'O', 'X');
    StartsApart(key, "SOROBAN_", 'S', 'O');
    StartsApart(key, "INDEXER_", 'I', 'N');
    StartsApart(key, "NEXT_PUBLIC_", 'N', 'E');
    StartsApart(key, "NEXT_PUBLIC_FEATURE_", 'N', 'E');
    StartsApart("FRONTEND_URL", "FRONTEND_URL", 'F', 'R');
    StartsApart("MW_API_KEY", "MW_API_KEY", 'M', 'W');
    StartsApart("NODE_ENV", "NODE_ENV", 'N', 'O');
    StartsApart("PORT", "PORT", 'P', 'O');
  }

  lemma StartsApart(key: string, prefix: string, first: char, second: char)
    requires |prefix| > 1 && prefix[0] == first && prefix[1] == second
    ensures StartsWith(key, prefix) ==> |key| > 1 && key[0] == first && key[1] == second
  {
  }

  function SectionAfter(definitions: seq<Definition>): Option<string> {
    if definitions == [] then None else Some(GetSectionForEnvKey(definitions[|definitions| - 1].key))
  }

  /** The blank line and comment that open a section, when `env` starts one. */
  function Heading(current: Option<string>, env: Definition): seq<string> {
    var section := GetSectionForEnvKey(env.key);
    if current == Some(section) then []
    else (if current == None then [] else [""]) + ["# " + section]
  }

  function Assignment(env: Definition): string {
    env.key + "=" + env.example
  }

  function LinesOf(definitions: seq<Definition>): seq<string> {
    if definitions == [] then [] else
      var before, env := definitions[..|definitions| - 1], definitions[|definitions| - 1];
      LinesOf(before) + Heading(SectionAfter(before), env) + [Assignment(env)]
  }

  function Content(definitions: seq<Definition>): string {
    Join(LinesOf(definitions), '\n') + "\n"
  }

  /** A line of the text and the section it belongs to. */
  datatype Entry = Entry(section: string, line: string)

  function EntryOf(d: Definition): Entry {
    Entry(GetSectionForEnvKey(d.key), d.key + "=" + d.example)
  }

  function EntriesOf(definitions: seq<Definition>): (entries: seq<Entry>)
    ensures |entries| == |definitions|
    ensures forall i | 0 <= i < |definitions| :: entries[i] == EntryOf(definitions[i])
  {
    if definitions == [] then []
    else EntriesOf(definitions[..|definitions| - 1]) + [EntryOf(definitions[|definitions| - 1])]
  }

  /** The line on which entry `i` stands, when each run of one section takes a heading and an empty line before it. */
  function LineOf(entries: seq<Entry>, i: nat): nat
    requires i < |entries|
  {
    if i == 0 then 1
    else LineOf(entries, i - 1) + if entries[i - 1].section == entries[i].section then 1 else 3
  }

  /** Entry `i` stands on its line; the first of its section has the heading above it, after an empty line. */
  ghost predicate StandsAt(entries: seq<Entry>, lines: seq<string>, i: nat)
    requires i < |entries|
  {
    var p := LineOf(entries, i);
    && 0 < p < |lines| && lines[p] == entries[i].line
    && (i == 0 || entries[i - 1].section != entries[i].section ==> lines[p - 1] == "# " + entries[i].section)
    && (i > 0 && entries[i - 1].section != entries[i].section ==> p > 1 && lines[p - 2] == "")
  }

  /** Every entry stands on its line, and there is no line more. */
  ghost predicate LaidOut(entries: seq<Entry>, lines: seq<string>) {
    && (forall i: nat | i < |entries| :: StandsAt(entries, lines, i))
    && |lines| == if entries == [] then 0 else LineOf(entries, |entries| - 1) + 1
  }

  lemma {:induction false} LineOfPrefix(entries: seq<Entry>, e: Entry, i: nat)
    requires i < |entries|
    ensures LineOf(entries + [e], i) == LineOf(entries, i)
  {
    if i == 0 {
    } else {
      LineOfPrefix(entries, e, i - 1);
    }
  }

  /** The heading that an entry takes after the given ones. */
  function HeadingAfter(entries: seq<Entry>, e: Entry): seq<string> {
    if entries == [] then ["# " + e.section]
    else if entries[|entries| - 1].section == e.section then []
    else ["", "# " + e.section]
  }

  lemma OneMoreIsLaidOut(entries: seq<Entry>, lines: seq<string>, e: Entry)
    requires LaidOut(entries, lines)
    ensures LaidOut(entries + [e], lines + HeadingAfter(entries, e) + [e.line])
  {
    var all, longer := entries + [e], lines + HeadingAfter(entries, e) + [e.line];
    if entries != [] {
      LineOfPrefix(entries, e, |entries| - 1);
    }
    forall i: nat | i < |entries| ensures StandsAt(all, longer, i) {
      assert StandsAt(entries, lines, i);
      LineOfPrefix(entries, e, i);
    }
    assert StandsAt(all, longer, |entries|);
  }

  lemma HeadingIsThat(before: seq<Definition>, env: Definition)
    ensures Heading(SectionAfter(before), env) == HeadingAfter(EntriesOf(before), EntryOf(env))
  {
  }

  /** The whole text: each definition on its line, under its section's heading, and no line more. */
  lemma {:induction false} EachStandsUnderItsHeading(definitions: seq<Definition>)
    ensures LaidOut(EntriesOf(definitions), LinesOf(definitions))
  {
    if definitions == [] {
    } else {
      var before, env := definitions[..|definitions| - 1], definitions[|definitions| - 1];
      EachStandsUnderItsHeading(before);
      HeadingIsThat(before, env);
      OneMoreIsLaidOut(EntriesOf(before), LinesOf(before), EntryOf(env));
    }
  }

  method GenerateEnvExampleContent(definitions: seq<Definition>) returns (content: string)
    ensures content == Content(definitions)
    ensures LaidOut(EntriesOf(definitions), LinesOf(definitions))
    ensures content == Join(LinesOf(definitions), '\n') + "\n"
  {
    EachStandsUnderItsHeading(definitions);
    var lines := [];
    var currentSection: Option<string> := None;
    for i := 0 to |definitions|
      invariant lines == LinesOf(definitions[..i])
      invariant currentSection == SectionAfter(definitions[..i])
    {
      var env := definitions[i];
      assert definitions[..i + 1][..i] == definitions[..i];
      ghost var before := lines;
      var section := GetSectionForEnvKey(env.key);
      if currentSection != Some(section) {
        if currentSection != None {
          lines := lines + [""];
        }
        lines := lines + ["# " + section];
        currentSection := Some(section);
      }
      assert lines == before + Heading(SectionAfter(definitions[..i]), env);
      lines := lines + [env.key + "=" + env.example];
    }
    assert definitions[..|definitions|] == definitions;
    content := Join(lines, '\n') + "\n";
  }

  // ---------------------------------------------------------------- parsing

  /** White space as `trim` removes it. */
  predicate IsSpace(c: char) {
    || '\t' <= c <= '\r' || c == ' '
    || c == '\U{00A0}' || c == '\U{1680}' || '\U{2000}' <= c <= '\U{200A}'
    || c == '\U{2028}' || c == '\U{2029}' || c == '\U{202F}' || c == '\U{205F}' || c == '\U{3000}' || c == '\U{FEFF}'
  }

  function TrimStart(s: string): string {
    if s != "" && IsSpace(s[0]) then TrimStart(s[1..]) else s
  }

  function TrimEnd(s: string): string {
    if s != "" && IsSpace(s[|s| - 1]) then TrimEnd(s[..|s| - 1]) else s
  }

  function Trim(s: string): string {
    TrimEnd(TrimStart(s))
  }

  /** What one more character in front does to the lines. */
  function Prepend(c: char, lines: seq<string>): seq<string>
    requires lines != []
  {
    if c == '\n' then [""] + lines else [[c] + lines[0]] + lines[1..]
  }

  function Split(text: string): (lines: seq<string>)
    ensures lines != []
  {
    if text == "" then [""] else Prepend(text[0], Split(text[1..]))
  }

  /** The position of the first `=`, or the length of the line. */
  function EqualsIndex(s: string): (k: nat)
    ensures k <= |s| && '=' !in s[..k] && (k < |s| ==> s[k] == '=')
  {
    if s == "" || s[0] == '=' then 0
    else
      var k := EqualsIndex(s[1..]);
      assert s[..k + 1] == [s[0]] + s[1..][..k];
      k + 1
  }

  function ParseLine(line: string): Option<Definition> {
    var trimmed := Trim(line);
    if trimmed == "" || trimmed[0] == '#' then None
    else
      var k := EqualsIndex(trimmed);
      if k == |trimmed| then None
      else Some(Definition(Trim(trimmed[..k]), Trim(trimmed[k + 1..])))
  }

  type Variables = map<string, string>

  function ParseLines(lines: seq<string>): Variables {
    if lines == [] then map[] else
      match ParseLine(lines[|lines| - 1])
      case None => ParseLines(lines[..|lines| - 1])
      case Some(d) => ParseLines(lines[..|lines| - 1])[d.key := d.example]
  }

  lemma ParseOneMore(lines: seq<string>, line: string)
    ensures ParseLines(lines + [line])
            == match ParseLine(line)
               case None => ParseLines(lines)
               case Some(d) => ParseLines(lines)[d.key := d.example]
  {
    assert (lines + [line])[..|lines|] == lines;
  }

  method ParseContent(content: string) returns (variables: Variables)
    ensures variables == ParseLines(Split(content))
  {
    variables := map[];
    var lines := Split(content);
    for i := 0 to |lines|
      invariant variables == ParseLines(lines[..i])
    {
      assert lines[..i + 1] == lines[..i] + [lines[i]];
      ParseOneMore(lines[..i], lines[i]);
      var trimmed := Trim(lines[i]);
      if trimmed == "" || trimmed[0] == '#' {
        continue;
      }
      var equalsIndex := EqualsIndex(trimmed);
      if equalsIndex == |trimmed| {
        continue;
      }
      var key := Trim(trimmed[..equalsIndex]);
      var value := Trim(trimmed[equalsIndex + 1..]);
      variables := variables[key := value];
    }
    assert lines[..|lines|] == lines;
  }

  // ---------------------------------------------------------------- comparing

  datatype Issue =
    | Missing(key: string, expected: string)
    | Mismatch(key: string, existing: string, expected: string)
    | Extra(key: string)

  function IssueFor(existing: Variables, d: Definition): Option<Issue> {
    if d.key !in existing then Some(Missing(d.key, d.example))
    else if existing[d.key] != d.example then Some(Mismatch(d.key, existing[d.key], d.example))
    else None
  }

  function KeysOf(definitions: seq<Definition>): set<string> {
    set d | d in definitions :: d.key
  }

  /** The file has exactly the canonical variables, with the canonical values. */
  ghost predicate InSync(existing: Variables, definitions: seq<Definition>) {
    && existing.Keys == KeysOf(definitions)
    && forall d | d in definitions :: d.key in existing && existing[d.key] == d.example
  }

  /** The difference that an issue reports. */
  ghost predicate Reports(existing: Variables, definitions: seq<Definition>, issue: Issue) {
    match issue
    case Missing(key, expected) => key !in existing && Definition(key, expected) in definitions
    case Mismatch(key, was, expected) =>
      key in existing && existing[key] == was != expected && Definition(key, expected) in definitions
    case Extra(key) => key in existing && key !in KeysOf(definitions)
  }

  /** Exactly the differences are reported, each as what it is; those of the definitions come first, in their order. */
  method CompareVariables(existing: Variables, definitions: seq<Definition>) returns (issues: seq<Issue>)
    ensures issues == [] <==> InSync(existing, definitions)
    ensures forall issue :: issue in issues <==> Reports(existing, definitions, issue)
    ensures IssuesOf(existing, definitions) <= issues
    ensures forall i | |IssuesOf(existing, definitions)| <= i < |issues| :: issues[i].Extra?
  {
    issues := [];
    for k := 0 to |definitions|
      invariant issues == IssuesOf(existing, definitions[..k])
    {
      var d := definitions[k];
      assert definitions[..k + 1][..k] == definitions[..k];
      if d.key !in existing {
        issues := issues + [Missing(d.key, d.example)];
      } else if existing[d.key] != d.example {
        issues := issues + [Mismatch(d.key, existing[d.key], d.example)];
      }
    }
    assert definitions[..|definitions|] == definitions;
    var canonicalKeys := KeysOf(definitions);
    var left := existing.Keys;
    ghost var extras := [];
    while left != {}
      invariant left <= existing.Keys
      invariant issues == IssuesOf(existing, definitions) + extras
      invariant forall issue :: issue in extras
                  <==> issue.Extra? && issue.key in existing.Keys - left && issue.key !in canonicalKeys
      decreases |left|
    {
      var key :| key in left;
      if key !in canonicalKeys {
        issues := issues + [Extra(key)];
        extras := extras + [Extra(key)];
      }
      left := left - {key};
    }
    IssuesAreDifferences(existing, definitions);
    ReportsAreDifferences(existing, definitions, issues);
  }

  function IssuesOf(existing: Variables, definitions: seq<Definition>): seq<Issue> {
    if definitions == [] then [] else
      var before := IssuesOf(existing, definitions[..|definitions| - 1]);
      match IssueFor(existing, definitions[|definitions| - 1])
      case None => before
      case Some(issue) => before + [issue]
  }

  lemma {:induction false} IssuesAreDifferences(existing: Variables, definitions: seq<Definition>)
    ensures forall issue :: issue in IssuesOf(existing, definitions)
                            <==> Reports(existing, definitions, issue) && !issue.Extra?
  {
    if definitions == [] {
    } else {
      var before, last := definitions[..|definitions| - 1], definitions[|definitions| - 1];
      IssuesAreDifferences(existing, before);
      assert definitions == before + [last];
    }
  }

  /** Nothing to report is being in sync. */
  lemma ReportsAreDifferences(existing: Variables, definitions: seq<Definition>, issues: seq<Issue>)
    requires forall issue :: issue in issues <==> Reports(existing, definitions, issue)
    ensures issues == [] <==> InSync(existing, definitions)
  {
    if issues == [] {
      assert forall key | key in existing :: Extra(key) !in issues;
      assert forall d | d in definitions :: Missing(d.key, d.example) !in issues;
      assert forall d | d in definitions && d.key in existing :: Mismatch(d.key, existing[d.key], d.example) !in issues;
    } else {
      assert issues[0] in issues;
    }
  }

  // ---------------------------------------------------------------- what survives printing

  predicate Trimmed(s: string) {
    s == "" || (!IsSpace(s[0]) && !IsSpace(s[|s| - 1]))
  }

  /** What a definition must look like to be read back. */
  predicate WellFormed(d: Definition) {
    && Trimmed(d.key) && '=' !in d.key && '\n' !in d.key && (d.key == "" || d.key[0] != '#')
    && Trimmed(d.example) && '\n' !in d.example
  }

  lemma {:induction false} TrimStartIsSuffix(s: string) returns (n: nat)
    ensures n <= |s| && TrimStart(s) == s[n..]
    ensures n < |s| ==> !IsSpace(s[n])
    decreases |s|
  {
    if s != "" && IsSpace(s[0]) {
      var m := TrimStartIsSuffix(s[1..]);
      n := m + 1;
    } else {
      n := 0;
    }
  }

  lemma {:induction false} TrimEndIsPrefix(s: string) returns (n: nat)
    ensures n <= |s| && TrimEnd(s) == s[..n]
    ensures n > 0 ==> !IsSpace(s[n - 1])
    decreases |s|
  {
    if s != "" && IsSpace(s[|s| - 1]) {
      n := TrimEndIsPrefix(s[..|s| - 1]);
    } else {
      n := |s|;
    }
  }

  /** Trimming leaves a trimmed part of the string, and leaves trimmed strings alone. */
  lemma TrimIsTrimmed(s: string)
    ensures Trimmed(Trim(s)) && (forall c | c in Trim(s) :: c in s)
    ensures Trimmed(s) ==> Trim(s) == s
    ensures s != "" && !IsSpace(s[0]) && Trim(s) != "" ==> Trim(s)[0] == s[0]
  {
    var n := TrimStartIsSuffix(s);
    var m := TrimEndIsPrefix(TrimStart(s));
  }

  lemma PrependConcat(c: char, first: seq<string>, second: seq<string>)
    requires first != []
    ensures Prepend(c, first + second) == Prepend(c, first) + second
  {
  }

  /** A line break splits a text in two. */
  lemma {:induction false} SplitConcat(a: string, b: string)
    ensures Split(a + "\n" + b) == Split(a) + Split(b)
    decreases |a|
  {
    var text := a + "\n" + b;
    if a == "" {
      assert text[1..] == b;
    } else {
      assert text[1..] == a[1..] + "\n" + b;
      SplitConcat(a[1..], b);
      PrependConcat(a[0], Split(a[1..]), Split(b));
    }
  }

  lemma {:induction false} SplitLine(line: string)
    requires '\n' !in line
    ensures Split(line) == [line]
  {
    if line == "" {
    } else {
      SplitLine(line[1..]);
      assert [line[0]] + line[1..] == line;
    }
  }

  ghost predicate NoBreaks(lines: seq<string>) {
    forall l | l in lines :: '\n' !in l
  }

  lemma {:induction false} SplitJoined(lines: seq<string>)
    requires lines != [] && NoBreaks(lines)
    ensures Split(Join(lines, '\n')) == lines
    decreases |lines|
  {
    var front, last := lines[..|lines| - 1], lines[|lines| - 1];
    SplitLine(last);
    if front == [] {
    } else {
      SplitJoined(front);
      SplitConcat(Join(front, '\n'), last);
      assert ['\n'] == "\n";
    }
  }

  /** A text that ends with a line break has an empty last line. */
  lemma SplitEnded(text: string)
    ensures Split(text + "\n") == Split(text) + [""]
  {
    SplitConcat(text, "");
    assert text + "\n" + "" == text + "\n";
  }

  lemma {:induction false} SplitHasNoBreaks(text: string)
    ensures NoBreaks(Split(text))
  {
    if text == "" {
    } else {
      SplitHasNoBreaks(text[1..]);
      var rest := Split(text[1..]);
      assert rest[0] in rest;
      forall l | l in Split(text) ensures '\n' !in l {
        if text[0] == '\n' {
          assert l == "" || l in rest;
        } else {
          assert l == [text[0]] + rest[0] || l in rest[1..];
        }
      }
    }
  }

  lemma {:induction false} EqualsIndexOf(key: string, rest: string)
    requires '=' !in key
    ensures EqualsIndex(key + "=" + rest) == |key|
  {
    if key == "" {
    } else {
      EqualsIndexOf(key[1..], rest);
      assert (key + "=" + rest)[1..] == key[1..] + "=" + rest;
    }
  }

  lemma AssignmentParses(d: Definition)
    requires WellFormed(d)
    ensures '\n' !in Assignment(d) && ParseLine(Assignment(d)) == Some(d)
  {
    var line := Assignment(d);
    assert Trimmed(line);
    TrimIsTrimmed(line);
    TrimIsTrimmed(d.key);
    TrimIsTrimmed(d.example);
    EqualsIndexOf(d.key, d.example);
    assert line[..|d.key|] == d.key && line[|d.key| + 1..] == d.example;
  }

  ghost predicate Printable(s: string) {
    forall i | 0 <= i < |s| :: s[i] >= ' '
  }

  lemma FirstTitlesArePrintable()
    ensures Printable("Database") && Printable("Auth") && Printable("Email (SMTP)") && Printable("Scheduling")
    ensures Printable("Third-party APIs")
  {
  }

  lemma OtherTitlesArePrintable()
    ensures Printable("Soroban/Stellar") && Printable("Indexer") && Printable("Feature flags")
    ensures Printable("API Configuration") && Printable("Server") && Printable("General")
  {
  }

  lemma TitleIsPrintable(section: Section)
    ensures Printable(Title(section))
  {
    FirstTitlesArePrintable();
    OtherTitlesArePrintable();
  }

  lemma TitleHasNoBreak(section: Section)
    ensures '\n' !in Title(section)
  {
    TitleIsPrintable(section);
    PrintableHasNoBreak(Title(section));
  }

  lemma PrintableHasNoBreak(s: string)
    requires Printable(s)
    ensures '\n' !in s
  {
  }

  lemma HeadingIsSkipped(current: Option<string>, env: Definition)
    ensures NoBreaks(Heading(current, env))
    ensures forall l | l in Heading(current, env) :: ParseLine(l) == None
  {
    var comment := "# " + GetSectionForEnvKey(env.key);
    TitleHasNoBreak(SectionOf(env.key));
    TrimIsTrimmed(comment);
    TrimIsTrimmed("");
    var n := TrimStartIsSuffix(comment);
    var m := TrimEndIsPrefix(comment);
    assert comment[0] == '#' && !IsSpace('#');
    assert Trim(comment) != "" by {
      CommentKeepsItsMark(comment);
    }
  }

  lemma {:induction false} CommentKeepsItsMark(s: string)
    requires s != "" && !IsSpace(s[0])
    ensures Trim(s) != ""
  {
    EndKeepsFirst(s);
  }

  lemma {:induction false} EndKeepsFirst(s: string)
    requires s != "" && !IsSpace(s[0])
    ensures TrimEnd(s) != ""
    decreases |s|
  {
    if IsSpace(s[|s| - 1]) {
      EndKeepsFirst(s[..|s| - 1]);
    }
  }

  /** The last definition of each key. */
  function MapOf(definitions: seq<Definition>): Variables {
    if definitions == [] then map[] else
      var before, last := definitions[..|definitions| - 1], definitions[|definitions| - 1];
      MapOf(before)[last.key := last.example]
  }

  lemma {:induction false} ParseSkips(lines: seq<string>, skipped: seq<string>)
    requires forall l | l in skipped :: ParseLine(l) == None
    ensures ParseLines(lines + skipped) == ParseLines(lines)
    decreases |skipped|
  {
    if skipped == [] {
      assert lines + skipped == lines;
    } else {
      var last := |skipped| - 1;
      assert (lines + skipped)[..|lines + skipped| - 1] == lines + skipped[..last];
      ParseSkips(lines, skipped[..last]);
    }
  }

  lemma {:induction false} LinesParse(definitions: seq<Definition>)
    requires forall d | d in definitions :: WellFormed(d)
    ensures NoBreaks(LinesOf(definitions)) && ParseLines(LinesOf(definitions)) == MapOf(definitions)
    decreases |definitions|
  {
    if definitions == [] {
    } else {
      var before, env := definitions[..|definitions| - 1], definitions[|definitions| - 1];
      LinesParse(before);
      var heading := Heading(SectionAfter(before), env);
      HeadingIsSkipped(SectionAfter(before), env);
      ParseSkips(LinesOf(before), heading);
      AssignmentParses(env);
      var lines := LinesOf(before) + heading;
      assert (lines + [Assignment(env)])[..|lines|] == lines;
    }
  }

  lemma WellFormedContentParses(definitions: seq<Definition>)
    requires forall d | d in definitions :: WellFormed(d)
    ensures ParseLines(Split(Content(definitions))) == MapOf(definitions)
  {
    LinesParse(definitions);
    TrimIsTrimmed("");
    if definitions == [] {
      SplitEnded("");
      ParseSkips([], ["", ""]);
      assert [] + ["", ""] == ["", ""] == [""] + [""];
    } else {
      SplitJoined(LinesOf(definitions));
      SplitEnded(Join(LinesOf(definitions), '\n'));
      ParseSkips(LinesOf(definitions), [""]);
    }
  }

  // ---------------------------------------------------------------- and nothing else does

  lemma ParsedIsWellFormed(line: string)
    requires '\n' !in line
    ensures ParseLine(line) == None || WellFormed(ParseLine(line).value)
  {
    var trimmed := Trim(line);
    TrimIsTrimmed(line);
    if trimmed != "" && trimmed[0] != '#' {
      var k := EqualsIndex(trimmed);
      if k < |trimmed| {
        TrimIsTrimmed(trimmed[..k]);
        TrimIsTrimmed(trimmed[k + 1..]);
        assert forall c | c in trimmed[..k] || c in trimmed[k + 1..] :: c in trimmed;
      }
    }
  }

  lemma {:induction false} ParsedAreWellFormed(lines: seq<string>)
    requires NoBreaks(lines)
    ensures forall key | key in ParseLines(lines) :: WellFormed(Definition(key, ParseLines(lines)[key]))
  {
    if lines == [] {
    } else {
      ParsedAreWellFormed(lines[..|lines| - 1]);
      ParsedIsWellFormed(lines[|lines| - 1]);
    }
  }

  /** Definitions of one key agree on its example. */
  ghost predicate Consistent(definitions: seq<Definition>) {
    forall d, e | d in definitions && e in definitions && d.key == e.key :: d.example == e.example
  }

  lemma MapOfOneMore(before: seq<Definition>, last: Definition)
    requires InSync(MapOf(before), before)
    requires forall d | d in before && d.key == last.key :: d.example == last.example
    ensures InSync(MapOf(before + [last]), before + [last])
  {
    assert (before + [last])[..|before|] == before;
    assert KeysOf(before + [last]) == KeysOf(before) + {last.key};
  }

  lemma {:induction false} MapOfConsistent(definitions: seq<Definition>)
    requires Consistent(definitions)
    ensures InSync(MapOf(definitions), definitions)
  {
    if definitions == [] {
    } else {
      var before, last := definitions[..|definitions| - 1], definitions[|definitions| - 1];
      assert definitions == before + [last];
      assert last in definitions && forall d | d in before :: d in definitions;
      MapOfConsistent(before);
      MapOfOneMore(before, last);
    }
  }

  /** A text that agrees with the definitions can only have been made of well-formed, consistent ones. */
  lemma InSyncNeedsWellFormed(text: string, definitions: seq<Definition>)
    requires InSync(ParseLines(Split(text)), definitions)
    ensures Consistent(definitions) && forall d | d in definitions :: WellFormed(d)
  {
    var parsed := ParseLines(Split(text));
    SplitHasNoBreaks(text);
    ParsedAreWellFormed(Split(text));
    assert forall d | d in definitions :: d == Definition(d.key, parsed[d.key]);
  }

  /** The printed text is read back as the definitions exactly when they are well formed and consistent. */
  lemma RoundTripsExactlyWhenWellFormed(definitions: seq<Definition>)
    ensures InSync(ParseLines(Split(Content(definitions))), definitions)
            <==> Consistent(definitions) && forall d | d in definitions :: WellFormed(d)
    ensures Consistent(definitions) ==>
              (ParseLines(Split(Content(definitions))) == MapOf(definitions)
               <==> forall d | d in definitions :: WellFormed(d))
  {
    if Consistent(definitions) {
      MapOfConsistent(definitions);
    }
    if Consistent(definitions) && forall d | d in definitions :: WellFormed(d) {
      WellFormedContentParses(definitions);
    }
    if InSync(ParseLines(Split(Content(definitions))), definitions) {
      InSyncNeedsWellFormed(Content(definitions), definitions);
    }
  }

  // ---------------------------------------------------------------- fix, then validate

  datatype Report = Report(needsUpdate: bool, updated: bool)

  /** The file says exactly what the definitions say. */
  ghost predicate UpToDate(text: string, definitions: seq<Definition>) {
    InSync(ParseLines(Split(text)), definitions)
  }

  /** One service's part of a generator run; `None` is a missing file. */
  ghost function RunService(file: Option<string>, definitions: seq<Definition>, validate: bool, fix: bool)
    : (Option<string>, Report)
  {
    var needsUpdate := file == None || !UpToDate(file.value, definitions);
    if needsUpdate && fix && !validate
    then (Some(Content(definitions)), Report(true, true))
    else (file, Report(needsUpdate, false))
  }

  method RunEnvGenerator(file: Option<string>, definitions: seq<Definition>, validate: bool, fix: bool)
    returns (written: Option<string>, report: Report)
    ensures (written, report) == RunService(file, definitions, validate, fix)
    ensures report.needsUpdate <==> file == None || !UpToDate(file.value, definitions)
    ensures report.updated <==> report.needsUpdate && fix && !validate
    ensures written == if report.updated then Some(Content(definitions)) else file
  {
    var needsUpdate := true;
    if file != None {
      var existing := ParseContent(file.value);
      var issues := CompareVariables(existing, definitions);
      needsUpdate := |issues| > 0;
    }
    var generated := GenerateEnvExampleContent(definitions);
    written := file;
    var updated := false;
    if needsUpdate && fix && !validate {
      written := Some(generated);
      updated := true;
    }
    report := Report(needsUpdate, updated);
  }

  /**
    Whatever the file was, a fixing run leaves one that every later run finds up to date and leaves
    alone, if and only if the definitions are well formed and consistent.
   */
  lemma FixConvergesExactly(file: Option<string>, definitions: seq<Definition>, validate: bool, fix: bool)
    ensures var fixed := RunService(file, definitions, false, true).0;
            RunService(fixed, definitions, validate, fix) == (fixed, Report(false, false))
            <==> Consistent(definitions) && forall d | d in definitions :: WellFormed(d)
  {
    RoundTripsExactlyWhenWellFormed(definitions);
    if file != None && UpToDate(file.value, definitions) {
      InSyncNeedsWellFormed(file.value, definitions);
    }
  }
}
