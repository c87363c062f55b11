/** The CSV printer of the issue snapshot, against a decoder for section 2 of RFC 4180 with LF as line break. */
module CsvExport {
  import opened Counting
  import opened Options
  import opened Texts

  // ---------------------------------------------------------------- the printer

  type Record = map<string, string>

  predicate NeedsQuotes(s: string) {
    ',' in s || '"' in s || '\n' in s
  }

  function DoubleQuotes(s: string): string {
    if s == "" then "" else (if s[0] == '"' then "\"\"" else [s[0]]) + DoubleQuotes(s[1..])
  }

  function Escape(s: string): string {
    if NeedsQuotes(s) then "\"" + DoubleQuotes(s) + "\"" else s
  }

  /** Only what needs quotes is quoted, and then the quotes inside are doubled. */
  lemma EscapesOnlyWhenNeeded(s: string)
    ensures Escape(s) == s <==> !NeedsQuotes(s)
    ensures NeedsQuotes(s) ==> |Escape(s)| == |s| + Count(s, '"') + 2
  {
    DoublingAddsQuotes(s);
  }

  lemma {:induction false} DoublingAddsQuotes(s: string)
    ensures |DoubleQuotes(s)| == |s| + Count(s, '"')
  {
    if s == "" {
    } else {
      DoublingAddsQuotes(s[1..]);
      CountFirst(s, '"');
    }
  }

  lemma {:induction false} CountFirst(s: string, c: char)
    requires s != ""
    ensures Count(s, c) == Count(s[1..], c) + if s[0] == c then 1 else 0
  {
    if |s| == 1 {
    } else {
      CountFirst(s[..|s| - 1], c);
      assert s[..|s| - 1][1..] == s[1..][..|s| - 2];
    }
  }

  /** A missing property prints as the empty string. */
  function Value(r: Record, header: string): string {
    if header in r then r[header] else ""
  }

  function Values(headers: seq<string>, r: Record): (row: seq<string>)
    ensures |row| == |headers|
  {
    seq(|headers|, i requires 0 <= i < |headers| => Value(r, headers[i]))
  }

  function EscapeAll(row: seq<string>): (cells: seq<string>)
    ensures |cells| == |row|
  {
    seq(|row|, i requires 0 <= i < |row| => Escape(row[i]))
  }

  function Line(row: seq<string>): string {
    Join(EscapeAll(row), ',')
  }

  function Table(headers: seq<string>, records: seq<Record>): (rows: seq<seq<string>>)
    ensures |rows| == |records|
  {
    seq(|records|, i requires 0 <= i < |records| => Values(headers, records[i]))
  }

  function Lines(rows: seq<seq<string>>): (lines: seq<string>)
    ensures |lines| == |rows|
  {
    seq(|rows|, i requires 0 <= i < |rows| => Line(rows[i]))
  }

  function ToCsv(headers: seq<string>, records: seq<Record>): string {
    if records == [] then ""
    else Join([Join(headers, ',')] + Lines(Table(headers, records)), '\n')
  }

  // ---------------------------------------------------------------- the decoder

  datatype Mode = FieldStart | Plain | Quoted | Closed | Failed

  datatype State = State(mode: Mode, field: string, row: seq<string>, rows: seq<seq<string>>)

  function Begin(row: seq<string>, rows: seq<seq<string>>): State {
    State(FieldStart, "", row, rows)
  }

  function EndField(s: State): State {
    Begin(s.row + [s.field], s.rows)
  }

  function EndRecord(s: State): State {
    Begin([], s.rows + [s.row + [s.field]])
  }

  function Next(s: State, c: char): State {
    match s.mode
    case FieldStart =>
      if c == '"' then s.(mode := Quoted)
      else if c == ',' then EndField(s)
      else if c == '\n' then EndRecord(s)
      else s.(mode := Plain, field := [c])
    case Plain =>
      if c == '"' then s.(mode := Failed)
      else if c == ',' then EndField(s)
      else if c == '\n' then EndRecord(s)
      else s.(field := s.field + [c])
    case Quoted =>
      if c == '"' then s.(mode := Closed) else s.(field := s.field + [c])
    case Closed =>
      if c == '"' then s.(mode := Quoted, field := s.field + [c])
      else if c == ',' then EndField(s)
      else if c == '\n' then EndRecord(s)
      else s.(mode := Failed)
    case Failed => s
  }

  function Feed(s: State, text: string): State
    decreases |text|
  {
    if text == "" then s else Feed(Next(s, text[0]), text[1..])
  }

  /** The last record may or may not end with a line break. */
  function Finish(s: State): Option<seq<seq<string>>> {
    if s.mode == Quoted || s.mode == Failed then None
    else if s.mode == FieldStart && s.row == [] then Some(s.rows)
    else Some(s.rows + [s.row + [s.field]])
  }

  function Decode(text: string): Option<seq<seq<string>>> {
    Finish(Feed(Begin([], []), text))
  }

  lemma {:induction false} FeedConcat(s: State, a: string, b: string)
    ensures Feed(s, a + b) == Feed(Feed(s, a), b)
    decreases |a|
  {
    if a == "" {
      assert a + b == b;
    } else {
      assert (a + b)[1..] == a[1..] + b;
      FeedConcat(Next(s, a[0]), a[1..], b);
    }
  }

  lemma FeedOne(s: State, c: char)
    ensures Feed(s, [c]) == Next(s, c)
  {
    assert [c][1..] == "";
    assert Feed(Next(s, c), "") == Next(s, c);
  }

  lemma FeedAt(s: State, text: string, n: nat)
    requires n < |text|
    ensures Feed(s, text) == Feed(Next(Feed(s, text[..n]), text[n]), text[n + 1..])
  {
    assert text == text[..n] + text[n..];
    FeedConcat(s, text[..n], text[n..]);
  }

  // ---------------------------------------------------------------- decoding what was printed

  lemma {:induction false} PlainFeeds(s: State, f: string)
    requires s.mode == Plain && !NeedsQuotes(f)
    ensures Feed(s, f) == s.(field := s.field + f)
    decreases |f|
  {
    if f == "" {
      assert s.field + f == s.field;
    } else {
      PlainFeeds(Next(s, f[0]), f[1..]);
      assert s.field + [f[0]] + f[1..] == s.field + f;
    }
  }

  lemma {:induction false} QuotedFeeds(s: State, f: string)
    requires s.mode == Quoted
    ensures Feed(s, DoubleQuotes(f)) == s.(field := s.field + f)
    decreases |f|
  {
    if f == "" {
      assert s.field + f == s.field;
    } else {
      var head := if f[0] == '"' then "\"\"" else [f[0]];
      FeedConcat(s, head, DoubleQuotes(f[1..]));
      FeedHead(s, f[0]);
      QuotedFeeds(s.(field := s.field + [f[0]]), f[1..]);
      assert s.field + [f[0]] + f[1..] == s.field + f;
    }
  }

  lemma FeedHead(s: State, c: char)
    requires s.mode == Quoted
    ensures Feed(s, if c == '"' then "\"\"" else [c]) == s.(field := s.field + [c])
  {
    FeedOne(s, c);
    if c == '"' {
      assert "\"\"" == ['"'] + ['"'];
      FeedConcat(s, ['"'], ['"']);
      FeedOne(Next(s, '"'), '"');
    }
  }

  /** The decoder stands at the end of field `f`, after the fields `row` of a record. */
  ghost predicate EndsField(s: State, row: seq<string>, rows: seq<seq<string>>, f: string) {
    && s == Begin(row, rows).(field := f, mode := s.mode)
    && (if f == "" then s.mode == FieldStart else s.mode == Plain || s.mode == Closed)
  }

  lemma FieldFeeds(row: seq<string>, rows: seq<seq<string>>, f: string)
    ensures EndsField(Feed(Begin(row, rows), Escape(f)), row, rows, f)
  {
    var s := Begin(row, rows);
    if NeedsQuotes(f) {
      var q := s.(mode := Quoted);
      FeedConcat(s, "\"", DoubleQuotes(f) + "\"");
      FeedOne(s, '"');
      FeedConcat(q, DoubleQuotes(f), "\"");
      QuotedFeeds(q, f);
      FeedOne(q.(field := f), '"');
      assert "" + f == f;
      assert Escape(f) == "\"" + (DoubleQuotes(f) + "\"");
    } else if f != "" {
      PlainFeeds(Next(s, f[0]), f[1..]);
      assert [f[0]] + f[1..] == f;
    }
  }

  lemma {:induction false} LineFeeds(row: seq<string>, rows: seq<seq<string>>)
    requires row != []
    ensures EndsField(Feed(Begin([], rows), Line(row)), row[..|row| - 1], rows, row[|row| - 1])
  {
    var last := |row| - 1;
    var s := Begin([], rows);
    if last == 0 {
      FieldFeeds([], rows, row[0]);
    } else {
      var before := row[..last];
      LineFeeds(before, rows);
      assert EscapeAll(row)[..last] == EscapeAll(before);
      assert before[..last - 1] + [before[last - 1]] == before;
      FeedConcat(s, Line(before) + [','], Escape(row[last]));
      FeedConcat(s, Line(before), [',']);
      FeedOne(Feed(s, Line(before)), ',');
      FieldFeeds(before, rows, row[last]);
      assert Feed(s, Line(before) + [',']) == Begin(before, rows);
    }
  }

  ghost predicate Rectangular(rows: seq<seq<string>>, width: nat) {
    forall i | 0 <= i < |rows| :: |rows[i]| == width
  }

  lemma BreakEndsRecord(s: State, record: seq<string>, rows: seq<seq<string>>)
    requires record != [] && EndsField(s, record[..|record| - 1], rows, record[|record| - 1])
    ensures Next(s, '\n') == Begin([], rows + [record])
  {
    assert record[..|record| - 1] + [record[|record| - 1]] == record;
  }

  lemma LastLine(rows: seq<seq<string>>)
    requires |rows| > 1
    ensures var n := |rows| - 1;
            Join(Lines(rows), '\n') == (Join(Lines(rows[..n]), '\n') + ['\n']) + Line(rows[n])
  {
    assert Lines(rows)[..|rows| - 1] == Lines(rows[..|rows| - 1]);
  }

  lemma {:induction false} TextFeeds(rows: seq<seq<string>>, width: nat)
    requires rows != [] && width > 0 && Rectangular(rows, width)
    ensures var last := rows[|rows| - 1];
            EndsField(Feed(Begin([], []), Join(Lines(rows), '\n')),
                      last[..width - 1], rows[..|rows| - 1], last[width - 1])
  {
    var n := |rows| - 1;
    if n == 0 {
      LineFeeds(rows[0], []);
      assert rows[..0] == [];
    } else {
      var s, before := Begin([], []), rows[..n];
      var text := Join(Lines(before), '\n');
      TextFeeds(before, width);
      LastLine(rows);
      FeedConcat(s, text + ['\n'], Line(rows[n]));
      FeedConcat(s, text, ['\n']);
      FeedOne(Feed(s, text), '\n');
      BreakEndsRecord(Feed(s, text), before[n - 1], before[..n - 1]);
      assert before[..n - 1] + [before[n - 1]] == before;
      LineFeeds(rows[n], before);
    }
  }

  lemma {:induction false} CleanHeaders(headers: seq<string>)
    requires forall h | h in headers :: !NeedsQuotes(h)
    ensures EscapeAll(headers) == headers
  {
    forall i | 0 <= i < |headers| ensures Escape(headers[i]) == headers[i] {
      assert headers[i] in headers;
    }
  }

  /** The text is that of one rectangular table, header row included. */
  lemma PrintedAsTable(headers: seq<string>, records: seq<Record>)
    requires records != [] && forall h | h in headers :: !NeedsQuotes(h)
    ensures var rows := [headers] + Table(headers, records);
            Rectangular(rows, |headers|) && ToCsv(headers, records) == Join(Lines(rows), '\n')
  {
    CleanHeaders(headers);
    var rows := [headers] + Table(headers, records);
    assert Lines(rows) == [Join(headers, ',')] + Lines(Table(headers, records));
  }

  ghost predicate RoundTrips(headers: seq<string>, records: seq<Record>) {
    Decode(ToCsv(headers, records)) == Some([headers] + Table(headers, records))
  }

  /** Clean headers: every field comes back, except that a lone empty field at the very end is lost. */
  lemma CleanHeadersRoundTrip(headers: seq<string>, records: seq<Record>)
    requires records != [] && headers != [] && forall h | h in headers :: !NeedsQuotes(h)
    ensures RoundTrips(headers, records)
            <==> !(|headers| == 1 && Value(records[|records| - 1], headers[0]) == "")
  {
    var rows := [headers] + Table(headers, records);
    PrintedAsTable(headers, records);
    TextFeeds(rows, |headers|);
    var last, n := rows[|rows| - 1], |rows| - 1;
    assert last == Values(headers, records[|records| - 1]);
    assert last[..|headers| - 1] + [last[|headers| - 1]] == last;
    assert rows[..n] + [last] == rows;
    assert |rows[..n]| < |rows|;
  }

  // ---------------------------------------------------------------- why headers have to be clean

  ghost predicate Differs(field: string, h: string) {
    exists i :: 0 <= i < |field| && i < |h| && field[i] != h[i]
  }

  /** Field `k` of the first record cannot come out as `h` any more. */
  ghost predicate Doomed(s: State, k: nat, h: string) {
    || s.mode == Failed
    || (s.rows == [] && |s.row| == k && (s.mode == Quoted || s.mode == Closed) && Differs(s.field, h))
    || SettledWrong(s, k, h)
  }

  ghost predicate SettledWrong(s: State, k: nat, h: string) {
    var first := if s.rows == [] then s.row else s.rows[0];
    |first| > k && first[k] != h
  }

  lemma DoomedNext(s: State, k: nat, h: string, c: char)
    requires Doomed(s, k, h)
    ensures Doomed(Next(s, c), k, h)
  {
    if s.rows == [] && |s.row| == k && (s.mode == Quoted || s.mode == Closed) && Differs(s.field, h) {
      var i :| 0 <= i < |s.field| && i < |h| && s.field[i] != h[i];
      assert Differs(s.field + [c], h) by {
        assert (s.field + [c])[i] != h[i];
      }
    }
  }

  lemma {:induction false} DoomedFeed(s: State, k: nat, h: string, text: string)
    requires Doomed(s, k, h)
    ensures Doomed(Feed(s, text), k, h)
    decreases |text|
  {
    if text == "" {
    } else {
      DoomedNext(s, k, h, text[0]);
      DoomedFeed(Next(s, text[0]), k, h, text[1..]);
    }
  }

  lemma DoomedFinish(s: State, k: nat, h: string)
    requires Doomed(s, k, h)
    ensures Finish(s) == None || (|Finish(s).value| > 0 && |Finish(s).value[0]| > k && Finish(s).value[0][k] != h)
  {
  }

  function Quotes(n: nat): string {
    seq(n, _ => '"')
  }

  /** Inside a quoted field, quotes pair up. */
  lemma {:induction false} QuotesFeed(s: State, n: nat)
    requires s.mode == Quoted
    decreases n
    ensures Feed(s, Quotes(n))
            == if n % 2 == 0 then s.(field := s.field + Quotes(n / 2))
               else s.(mode := Closed, field := s.field + Quotes(n / 2))
  {
    if n == 0 {
      assert s.field + Quotes(0) == s.field;
    } else if n == 1 {
      assert Quotes(1) == ['"'];
      FeedOne(s, '"');
      assert s.field + Quotes(0) == s.field;
    } else {
      var s' := s.(field := s.field + ['"']);
      assert Quotes(n) == "\"\"" + Quotes(n - 2);
      FeedConcat(s, "\"\"", Quotes(n - 2));
      FeedHead(s, '"');
      QuotesFeed(s', n - 2);
      assert s.field + ['"'] + Quotes((n - 2) / 2) == s.field + Quotes(n / 2);
    }
  }

  lemma {:induction false} LeadingQuotes(text: string, end: char) returns (n: nat)
    requires end != '"'
    ensures n <= |text| && text[..n] == Quotes(n)
    ensures (if n < |text| then text[n] else end) != '"'
    decreases |text|
  {
    if text == "" || text[0] != '"' {
      n := 0;
    } else {
      var m := LeadingQuotes(text[1..], end);
      n := m + 1;
      assert text[..n] == [text[0]] + text[1..][..m];
    }
  }

  /** After `n` quotes, any other character shows that the field is not `h`, which has more than `n`. */
  lemma OtherAfterQuotesIsDoomed(row: seq<string>, h: string, n: nat, x: char)
    requires n < |h| && x != '"' && forall i | 0 <= i <= n :: h[i] == '"'
    ensures var s := Begin(row, []).(mode := Quoted);
            Doomed(Next(Feed(s, Quotes(n)), x), |row|, h)
  {
    var s := Begin(row, []).(mode := Quoted);
    QuotesFeed(s, n);
    var s1 := Feed(s, Quotes(n));
    assert s1.field == Quotes(n / 2);
    var s2 := Next(s1, x);
    if n % 2 == 0 {
      assert s2.field[n / 2] == x && h[n / 2] == '"';
      assert Differs(s2.field, h);
    } else if x == ',' || x == '\n' {
      assert |s1.field| < |h|;
      assert SettledWrong(s2, |row|, h);
    }
  }

  /** Printed bare, a header that starts with a quote never comes back. */
  lemma QuoteFirstIsDoomed(row: seq<string>, h: string, tail: string)
    requires h != "" && h[0] == '"'
    requires tail != "" && (tail[0] == ',' || tail[0] == '\n')
    ensures Doomed(Feed(Begin(row, []), h + tail), |row|, h)
  {
    var q, text := h[1..], (h + tail)[1..];
    var n := LeadingQuotes(q, tail[0]);
    var s := Begin(row, []).(mode := Quoted);
    assert text == q + tail;
    assert Feed(Begin(row, []), h + tail) == Feed(s, text);
    FeedAt(s, text, n);
    assert text[..n] == q[..n];
    forall i | 0 <= i <= n ensures h[i] == '"' {
      assert i > 0 ==> h[i] == q[..n][i - 1];
    }
    OtherAfterQuotesIsDoomed(row, h, n, text[n]);
    DoomedFeed(Next(Feed(s, Quotes(n)), text[n]), |row|, h, text[n + 1..]);
  }

  lemma {:induction false} FirstSpecial(h: string) returns (n: nat)
    requires NeedsQuotes(h)
    ensures n < |h| && !NeedsQuotes(h[..n]) && (h[n] == ',' || h[n] == '"' || h[n] == '\n')
    decreases |h|
  {
    if h[0] == ',' || h[0] == '"' || h[0] == '\n' {
      n := 0;
    } else {
      assert h == [h[0]] + h[1..];
      var m := FirstSpecial(h[1..]);
      n := m + 1;
      assert h[..n] == [h[0]] + h[1..][..m];
    }
  }

  lemma CleanFieldFeeds(row: seq<string>, f: string)
    requires !NeedsQuotes(f)
    ensures Feed(Begin(row, []), f) == if f == "" then Begin(row, []) else State(Plain, f, row, [])
  {
    if f != "" {
      PlainFeeds(Next(Begin(row, []), f[0]), f[1..]);
      assert [f[0]] + f[1..] == f;
    }
  }

  /** Printed bare, a header with a special character never comes back. */
  lemma DirtyFieldIsDoomed(row: seq<string>, h: string, tail: string)
    requires NeedsQuotes(h)
    requires tail != "" && (tail[0] == ',' || tail[0] == '\n')
    ensures Doomed(Feed(Begin(row, []), h + tail), |row|, h)
  {
    if h[0] == '"' {
      QuoteFirstIsDoomed(row, h, tail);
    } else {
      var n := FirstSpecial(h);
      var f, text := h[..n], h + tail;
      var s := if f == "" then Begin(row, []) else State(Plain, f, row, []);
      FeedAt(Begin(row, []), text, n);
      assert text[..n] == f && text[n] == h[n];
      CleanFieldFeeds(row, f);
      assert Next(s, h[n]).mode == Failed || SettledWrong(Next(s, h[n]), |row|, h);
      DoomedFeed(Next(s, h[n]), |row|, h, text[n + 1..]);
    }
  }

  /** The text around part `j` of a joined line. */
  lemma {:induction false} JoinAround(parts: seq<string>, j: nat) returns (tail: string)
    requires j < |parts|
    ensures Join(parts, ',') == (if j == 0 then "" else Join(parts[..j], ',') + [',']) + parts[j] + tail
    ensures tail == "" || tail[0] == ','
    decreases |parts|
  {
    var last := |parts| - 1;
    if j == last {
      tail := "";
    } else {
      var inner := JoinAround(parts[..last], j);
      assert parts[..last][..j] == parts[..j];
      tail := inner + [','] + parts[last];
    }
  }

  /** Join puts the first part first. */
  lemma {:induction false} JoinFirst(parts: seq<string>, separator: char) returns (rest: string)
    requires |parts| > 1
    ensures Join(parts, separator) == parts[0] + [separator] + rest
  {
    var last := |parts| - 1;
    if last == 1 {
      rest := parts[1];
      assert parts[..1] == [parts[0]];
    } else {
      var inner := JoinFirst(parts[..last], separator);
      rest := inner + [separator] + parts[last];
    }
  }

  lemma CleanPrefixFeeds(headers: seq<string>, j: nat)
    requires 0 < j < |headers| && forall i | 0 <= i < j :: !NeedsQuotes(headers[i])
    ensures Feed(Begin([], []), Join(headers[..j], ',') + [',']) == Begin(headers[..j], [])
  {
    var prefix := headers[..j];
    CleanHeaders(prefix);
    LineFeeds(prefix, []);
    FeedConcat(Begin([], []), Join(prefix, ','), [',']);
    FeedOne(Feed(Begin([], []), Join(prefix, ',')), ',');
    assert prefix[..j - 1] + [prefix[j - 1]] == prefix;
  }

  /** The printed text around the header `j`, and the state in which the decoder reaches it. */
  lemma TextAround(headers: seq<string>, records: seq<Record>, j: nat) returns (before: string, after: string)
    requires records != [] && j < |headers| && forall i | 0 <= i < j :: !NeedsQuotes(headers[i])
    ensures ToCsv(headers, records) == before + (headers[j] + after)
    ensures after != "" && (after[0] == ',' || after[0] == '\n')
    ensures Feed(Begin([], []), before) == Begin(headers[..j], [])
  {
    var tail := JoinAround(headers, j);
    var rest := JoinFirst([Join(headers, ',')] + Lines(Table(headers, records)), '\n');
    after := tail + (['\n'] + rest);
    if j == 0 {
      before := "";
      assert headers[..0] == [];
    } else {
      before := Join(headers[..j], ',') + [','];
      CleanPrefixFeeds(headers, j);
    }
    Reassociate(before, headers[j], tail, ['\n'] + rest);
    Reassociate("", Join(headers, ','), ['\n'], rest);
  }

  lemma Reassociate(a: string, b: string, c: string, d: string)
    ensures ((a + b) + c) + d == (a + b) + (c + d) == a + (b + (c + d))
  {
  }

  lemma DirtyHeaderDoesNotRoundTrip(headers: seq<string>, records: seq<Record>, j: nat)
    requires records != [] && j < |headers| && NeedsQuotes(headers[j])
    requires forall i | 0 <= i < j :: !NeedsQuotes(headers[i])
    ensures !RoundTrips(headers, records)
  {
    var before, after := TextAround(headers, records, j);
    FeedConcat(Begin([], []), before, headers[j] + after);
    DirtyFieldIsDoomed(headers[..j], headers[j], after);
    DoomedFinish(Feed(Begin([], []), ToCsv(headers, records)), j, headers[j]);
  }

  lemma NoHeadersDoNotRoundTrip(records: seq<Record>)
    requires records != []
    ensures !RoundTrips([], records)
  {
    var rest := JoinFirst([""] + Lines(Table([], records)), '\n');
    var start := Begin([], []);
    assert ToCsv([], records) == ['\n'] + rest;
    FeedConcat(start, ['\n'], rest);
    FeedOne(start, '\n');
    assert SettledWrong(Next(start, '\n'), 0, "x");
    DoomedFeed(Next(start, '\n'), 0, "x", rest);
    DoomedFinish(Feed(start, ToCsv([], records)), 0, "x");
  }

  /** Header `j` is the first that needs quotes. */
  predicate IsFirstDirty(headers: seq<string>, j: nat) {
    j < |headers| && NeedsQuotes(headers[j]) && forall i | 0 <= i < j :: !NeedsQuotes(headers[i])
  }

  lemma {:induction false} FirstDirty(headers: seq<string>)
    requires exists h :: h in headers && NeedsQuotes(h)
    ensures exists j: nat :: IsFirstDirty(headers, j)
    decreases |headers|
  {
    var last := |headers| - 1;
    if exists h :: h in headers[..last] && NeedsQuotes(h) {
      FirstDirty(headers[..last]);
      var j: nat :| IsFirstDirty(headers[..last], j);
      assert IsFirstDirty(headers, j);
    } else {
      assert headers == headers[..last] + [headers[last]];
      forall i | 0 <= i < last ensures !NeedsQuotes(headers[i]) {
        assert headers[i] in headers[..last];
      }
      assert IsFirstDirty(headers, last);
    }
  }

  /** What a caller has to supply: clean headers, and no lone empty field at the very end. */
  predicate Printable(headers: seq<string>, records: seq<Record>)
    requires records != []
  {
    && headers != []
    && (forall h | h in headers :: !NeedsQuotes(h))
    && !(|headers| == 1 && Value(records[|records| - 1], headers[0]) == "")
  }

  /** The printed text decodes to the header row and every field, for exactly the printable tables. */
  lemma RoundTripsExactlyWhenPrintable(headers: seq<string>, records: seq<Record>)
    ensures records == [] ==> Decode(ToCsv(headers, records)) == Some([])
    ensures records != [] ==> (RoundTrips(headers, records) <==> Printable(headers, records))
  {
    if records != [] {
      if headers == [] {
        NoHeadersDoNotRoundTrip(records);
      } else if exists h :: h in headers && NeedsQuotes(h) {
        FirstDirty(headers);
        var j: nat :| IsFirstDirty(headers, j);
        DirtyHeaderDoesNotRoundTrip(headers, records, j);
      } else {
        CleanHeadersRoundTrip(headers, records);
      }
    }
  }

  /** The columns of a normalised issue. */
  function SnapshotHeaders(): seq<string> {
    ["number", "title", "state", "labels", "assignees", "author", "created_at",
     "updated_at", "closed_at", "url", "milestone", "comments", "body_length"]
  }

  ghost predicate IsIdentifier(s: string) {
    forall i | 0 <= i < |s| :: 'a' <= s[i] <= 'z' || s[i] == '_'
  }

  lemma SnapshotHeadersAreIdentifiers()
    ensures forall h | h in SnapshotHeaders() :: IsIdentifier(h)
  {
  }

  /** So every snapshot the script writes can be read back, whatever its fields contain. */
  lemma SnapshotsRoundTrip(records: seq<Record>)
    requires records != []
    ensures RoundTrips(SnapshotHeaders(), records)
  {
    SnapshotHeadersAreIdentifiers();
    assert forall h | h in SnapshotHeaders() :: IsIdentifier(h) ==> !NeedsQuotes(h);
    RoundTripsExactlyWhenPrintable(SnapshotHeaders(), records);
  }
}
