/** The rich email parser: splits a message into its header block and body,
    builds the lower-cased header map, applies the field defaults, cleans the
    subject and tries a fixed list of date formats in order. The file read is
    replaced by the `content` parameter and `datetime.strptime` by a
    `DateParser` passed in. */
module EmailProcessor {
  import opened Wrappers
  import opened Strings

  datatype DateTime = DateTime(year: int, month: int, day: int,
                               hour: int, minute: int, second: int,
                               utcOffsetMinutes: Option<int>)

  /** `datetime.strptime(text, format)` as a function of `(format, text)`:
      the date it returns, or `None` where it raises `ValueError`. */
  type DateParser = (string, string) -> Option<DateTime>

  /** The formats tried, in this order, on the `date` header. */
  const DateFormats: seq<string> := [
    "%a, %d %b %Y %H:%M:%S %z",
    "%d %b %Y %H:%M:%S %z",
    "%Y-%m-%d %H:%M:%S",
    "%m/%d/%Y %H:%M:%S"
  ]

  const BlankLine := "\n\n"

  const Unknown := "Unknown"
  const SubjectPrefix := "Subject:"
  /** The subject of a message without a `subject` header, before cleaning. */
  const DefaultSubject := SubjectPrefix + " " + Unknown

  datatype ParsedEmail = ParsedEmail(
    subject: string,
    sender: string,
    recipient: string,
    date: string,
    parsedDate: Option<DateTime>,
    emailBody: string,
    headers: map<string, string>)

  /** The text before the first blank line, or "" when there is none. */
  function HeaderBlock(content: string): string {
    match SplitOnce(content, BlankLine)
    case None => ""
    case Some((headers, _)) => headers
  }

  /** The text after the first blank line, or all of `content` when there is none. */
  function BodyBlock(content: string): string {
    match SplitOnce(content, BlankLine)
    case None => content
    case Some((_, body)) => body
  }

  /** The `(key, value)` a header line contributes: split at its first `:`,
      the key trimmed and lower-cased, the value trimmed; nothing for a line
      without `:`. */
  function HeaderEntry(line: string): Option<(string, string)> {
    match SplitOnce(line, ":")
    case None => None
    case Some((key, value)) => Some((ToLower(Strip(key)), Strip(value)))
  }

  /** The entry each header line contributes, line by line. */
  function Entries(lines: seq<string>): (es: seq<Option<(string, string)>>)
    ensures |es| == |lines|
    ensures forall i :: 0 <= i < |lines| ==> es[i] == HeaderEntry(lines[i])
  {
    seq(|lines|, i requires 0 <= i < |lines| => HeaderEntry(lines[i]))
  }

  /** `d[key] = value` for each entry of `es[..n]` in order, starting from an
      empty dictionary; a `None` entry assigns nothing. */
  function Assign(es: seq<Option<(string, string)>>, n: nat): map<string, string>
    requires n <= |es|
    decreases n
  {
    if n == 0 then map[]
    else Put(Assign(es, n - 1), es[n - 1])
  }

  /** The header dictionary built from the header lines. */
  function HeaderMap(lines: seq<string>): map<string, string> {
    Assign(Entries(lines), |lines|)
  }

  /** The header map of a content string: its header block split at each `\n`. */
  function Headers(content: string): map<string, string> {
    HeaderMap(SplitOn(HeaderBlock(content), "\n"))
  }

  /** The first format in `formats` that `strptime` accepts decides the date. */
  function FirstParse(formats: seq<string>, date: string, strptime: DateParser): (r: Option<DateTime>)
    ensures r.None? <==> forall i :: 0 <= i < |formats| ==> strptime(formats[i], date).None?
    ensures r.Some? ==> exists i :: 0 <= i < |formats| && strptime(formats[i], date) == r
                                    && forall j :: 0 <= j < i ==> strptime(formats[j], date).None?
  {
    if formats == [] then None
    else
      match strptime(formats[0], date)
      case Some(d) =>
        assert strptime(formats[0], date) == Some(d);
        Some(d)
      case None =>
        var r := FirstParse(formats[1..], date, strptime);
        assert forall i :: 1 <= i < |formats| ==> formats[i] == formats[1..][i - 1];
        r
  }

  /** The subject after the cleanup of lines 30-31: a value that starts with
      `Subject:` loses every `Subject:` and is trimmed. */
  function CleanSubject(raw: string): string {
    if StartsWith(raw, SubjectPrefix) then Strip(RemoveAll(raw, SubjectPrefix)) else raw
  }

  /** The `subject` field: the `subject` header, defaulting to
      "Subject: Unknown", then cleaned. */
  function Subject(headers: map<string, string>): string {
    CleanSubject(Get(headers, "subject", DefaultSubject))
  }

  function ParsedDate(date: string, strptime: DateParser): Option<DateTime> {
    if date == Unknown then None else FirstParse(DateFormats, date, strptime)
  }

  /** `parse_email` on the file contents `content`. */
  function Parsed(content: string, strptime: DateParser): ParsedEmail {
    var headers := Headers(content);
    var date := Get(headers, "date", Unknown);
    ParsedEmail(
      subject := Subject(headers),
      sender := Get(headers, "from", Get(headers, "sender", Unknown)),
      recipient := Get(headers, "to", Unknown),
      date := date,
      parsedDate := ParsedDate(date, strptime),
      emailBody := Strip(BodyBlock(content)),
      headers := headers)
  }

  /** Assigning one entry to the dictionary; `None` assigns nothing. */
  function Put(headers: map<string, string>, e: Option<(string, string)>): map<string, string> {
    match e
    case None => headers
    case Some((key, value)) => headers[key := value]
  }

  /** One pass of the header loop (lines 19-21) on a single line. */
  method AddHeaderLine(headers: map<string, string>, line: string) returns (updated: map<string, string>)
    ensures updated == Put(headers, HeaderEntry(line))
  {
    updated := headers;
    if Contains(line, ":") {
      var (key, value) := SplitOnce(line, ":").value;
      updated := headers[ToLower(Strip(key)) := Strip(value)];
    }
  }

  /** The header loop (lines 17-21): builds the map by assignment, line by line. */
  method ParseHeaders(headersText: string) returns (headers: map<string, string>)
    ensures headers == HeaderMap(SplitOn(headersText, "\n"))
  {
    var lines := SplitOn(headersText, "\n");
    headers := map[];
    var i := 0;
    while i < |lines|
      invariant 0 <= i <= |lines|
      invariant headers == Assign(Entries(lines), i)
    {
      headers := AddHeaderLine(headers, lines[i]);
      AssignStep(lines, i);
      i := i + 1;
    }
  }

  /** One more line assigns its entry on top of the map so far. */
  lemma {:induction false} AssignStep(lines: seq<string>, i: nat)
    requires i < |lines|
    ensures Assign(Entries(lines), i + 1) == Put(Assign(Entries(lines), i), HeaderEntry(lines[i]))
  {
  }

  /** The date loop (lines 34-49): tries each format in turn and stops at the
      first that parses. */
  method ParseDate(date: string, strptime: DateParser) returns (parsed: Option<DateTime>)
    ensures parsed == ParsedDate(date, strptime)
  {
    parsed := None;
    if date != Unknown {
      var i := 0;
      while i < |DateFormats|
        invariant 0 <= i <= |DateFormats|
        invariant parsed == None
        invariant FirstParse(DateFormats[i..], date, strptime) == FirstParse(DateFormats, date, strptime)
      {
        var attempt := strptime(DateFormats[i], date);
        if attempt.Some? {
          parsed := attempt;
          break;
        }
        assert DateFormats[i..][1..] == DateFormats[i + 1..];
        i := i + 1;
      }
    }
  }

  /** `parse_email`, with `content` in place of the file it reads. */
  method ParseEmail(content: string, strptime: DateParser) returns (email: ParsedEmail)
    ensures email == Parsed(content, strptime)
  {
    var parts := SplitOnce(content, BlankLine);
    var headersText := if parts.Some? then parts.value.0 else "";
    var body := if parts.Some? then parts.value.1 else content;
    var headers := ParseHeaders(headersText);
    var subject := Get(headers, "subject", DefaultSubject);
    var sender := Get(headers, "from", Get(headers, "sender", Unknown));
    var recipient := Get(headers, "to", Unknown);
    var date := Get(headers, "date", Unknown);
    if StartsWith(subject, SubjectPrefix) {
      subject := Strip(RemoveAll(subject, SubjectPrefix));
    }
    var parsedDate := ParseDate(date, strptime);
    email := ParsedEmail(subject, sender, recipient, date, parsedDate, Strip(body), headers);
  }

  // ---------------------------------------------------------------------
  // Properties of the parser

  /** The header block is the text before the first blank line and the
      body block the text after it; without a blank line the header block is
      empty and the body block is the whole content. */
  lemma {:induction false} BlocksAtFirstBlankLine(content: string)
    ensures IndexOf(content, BlankLine).None? ==>
              HeaderBlock(content) == "" && BodyBlock(content) == content
    ensures IndexOf(content, BlankLine).Some? ==>
              var i := IndexOf(content, BlankLine).value;
              HeaderBlock(content) == content[..i] && BodyBlock(content) == content[i + 2..]
  {
    match IndexOf(content, BlankLine)
    case None =>
    case Some(i) =>
      assert OccursAt(content, BlankLine, i);
  }

  /** Whatever precedes the first blank line stays out of the body, even when
      none of its lines is a header: for `h + "\n\n" + b` with no blank line
      inside `h` (nor one formed by a trailing newline of `h`), the header
      block is `h` and the body block is `b`. */
  lemma {:induction false} HeaderTextNeverInBody(h: string, b: string)
    requires !Contains(h, BlankLine)
    requires h == [] || h[|h| - 1] != '\n'
    ensures HeaderBlock(h + BlankLine + b) == h
    ensures BodyBlock(h + BlankLine + b) == b
  {
    var c := h + BlankLine + b;
    assert OccursAt(c, BlankLine, |h|);
    assert IndexOfFrom(h, BlankLine, 0).None?;
    forall j | 0 <= j < |h|
      ensures !OccursAt(c, BlankLine, j)
    {
      if j + 2 <= |h| {
        assert c[j..j + 2] == h[j..j + 2];
        assert !OccursAt(h, BlankLine, j);
      } else {
        assert c[j..j + 2][0] == h[|h| - 1];
      }
    }
    var i := IndexOf(c, BlankLine);
    assert i == Some(|h|);
    assert c[..|h|] == h;
    assert c[|h| + 2..] == b;
  }

  /** The same, for the parsed email: its body is `b` trimmed and its
      headers come from the lines of `h` alone. */
  lemma {:induction false} BodyAfterFirstBlankLine(h: string, b: string, strptime: DateParser)
    requires !Contains(h, BlankLine)
    requires h == [] || h[|h| - 1] != '\n'
    ensures Parsed(h + BlankLine + b, strptime).emailBody == Strip(b)
    ensures Parsed(h + BlankLine + b, strptime).headers == HeaderMap(SplitOn(h, "\n"))
  {
    HeaderTextNeverInBody(h, b);
    BodyField(h + BlankLine + b, strptime);
    HeadersField(h + BlankLine + b, strptime);
  }

  lemma {:induction false} BodyField(content: string, strptime: DateParser)
    ensures Parsed(content, strptime).emailBody == Strip(BodyBlock(content))
  {
  }

  lemma {:induction false} HeadersField(content: string, strptime: DateParser)
    ensures Parsed(content, strptime).headers == Headers(content)
  {
  }

  lemma {:induction false} SubjectField(content: string, strptime: DateParser)
    ensures Parsed(content, strptime).subject == Subject(Headers(content))
  {
  }

  /** A line without `:` contributes no header. */
  lemma {:induction false} LineWithoutColon(line: string)
    requires ':' !in line
    ensures HeaderEntry(line) == None
  {
    ContainsChar(line, ':');
  }

  /** A line is split at its first `:` only: the value keeps any later `:`. */
  lemma {:induction false} LineSplitAtFirstColon(key: string, value: string)
    requires ':' !in key
    ensures HeaderEntry(key + ":" + value) == Some((ToLower(Strip(key)), Strip(value)))
  {
    var line := key + ":" + value;
    ContainsChar(key, ':');
    assert OccursAt(line, ":", |key|);
    forall j | 0 <= j < |key|
      ensures !OccursAt(line, ":", j)
    {
      assert line[j..j + 1] == key[j..j + 1];
      assert !OccursAt(key, ":", j);
    }
    assert IndexOf(line, ":") == Some(|key|);
    assert line[..|key|] == key;
    assert line[|key| + 1..] == value;
  }

  predicate Assigns(e: Option<(string, string)>, key: string) {
    e.Some? && e.value.0 == key
  }

  /** The index of the last entry of `es[..n]` that assigns `key`, searched
      backwards from the end. */
  function LastAssignment(es: seq<Option<(string, string)>>, key: string, n: nat): (r: Option<nat>)
    requires n <= |es|
    ensures r.Some? ==> r.value < n && Assigns(es[r.value], key)
                        && forall j :: r.value < j < n ==> !Assigns(es[j], key)
    ensures r.None? ==> forall j :: 0 <= j < n ==> !Assigns(es[j], key)
    decreases n
  {
    if n == 0 then None
    else if Assigns(es[n - 1], key) then Some(n - 1)
    else LastAssignment(es, key, n - 1)
  }

  /** The value that the last entry of `es[..n]` for `key` assigns, if any. */
  function LastAssigned(es: seq<Option<(string, string)>>, key: string, n: nat): Option<string>
    requires n <= |es|
  {
    match LastAssignment(es, key, n)
    case None => None
    case Some(i) => Some(es[i].value.1)
  }

  /** The value of the last header line whose key is `key`, if any. */
  function LastValue(lines: seq<string>, key: string): Option<string> {
    LastAssigned(Entries(lines), key, |lines|)
  }

  lemma {:induction false} AssignLastWins(es: seq<Option<(string, string)>>, key: string, n: nat)
    requires n <= |es|
    ensures key in Assign(es, n) <==> LastAssigned(es, key, n).Some?
    ensures key in Assign(es, n) ==> Assign(es, n)[key] == LastAssigned(es, key, n).value
    decreases n
  {
    if n > 0 {
      AssignLastWins(es, key, n - 1);
    }
  }

  /** A repeated key keeps the value of its last line: the dictionary built
      by assignment holds `key` exactly when some header line has that key,
      and then holds the value of the last such line. */
  lemma {:induction false} HeaderMapLastWins(lines: seq<string>, key: string)
    ensures key in HeaderMap(lines) <==> LastValue(lines, key).Some?
    ensures key in HeaderMap(lines) ==> HeaderMap(lines)[key] == LastValue(lines, key).value
  {
    AssignLastWins(Entries(lines), key, |lines|);
  }

  function OrElse(v: Option<string>, default: string): string {
    if v.Some? then v.value else default
  }

  /** The field fallbacks, in terms of the header lines: `sender` is the last
      `from` line, else the last `sender` line, else "Unknown"; `recipient`
      is the last `to` line or "Unknown"; `date` the last `date` line or
      "Unknown"; and the returned `headers` is the header dictionary itself. */
  lemma {:induction false} FieldFallbacks(content: string, strptime: DateParser)
    ensures var lines := SplitOn(HeaderBlock(content), "\n");
            var e := Parsed(content, strptime);
            && e.sender == OrElse(LastValue(lines, "from"), OrElse(LastValue(lines, "sender"), Unknown))
            && e.recipient == OrElse(LastValue(lines, "to"), Unknown)
            && e.date == OrElse(LastValue(lines, "date"), Unknown)
            && e.headers == HeaderMap(lines)
  {
    var lines := SplitOn(HeaderBlock(content), "\n");
    HeaderMapLastWins(lines, "from");
    HeaderMapLastWins(lines, "sender");
    HeaderMapLastWins(lines, "to");
    HeaderMapLastWins(lines, "date");
  }

  /** The subject is the `subject` header value, cleaned only when it starts
      with `Subject:`; with no `subject` header it is "Unknown". */
  lemma {:induction false} SubjectRule(h: map<string, string>)
    ensures "subject" !in h ==> Subject(h) == Unknown
    ensures "subject" in h && !StartsWith(h["subject"], SubjectPrefix) ==> Subject(h) == h["subject"]
    ensures "subject" in h && StartsWith(h["subject"], SubjectPrefix) ==>
              Subject(h) == Strip(RemoveAll(h["subject"], SubjectPrefix))
  {
    DefaultSubjectIsUnknown();
  }

  /** The default "Subject: Unknown" cleans to "Unknown". */
  lemma {:induction false} DefaultSubjectIsUnknown()
    ensures CleanSubject(DefaultSubject) == Unknown
  {
    var rest := " " + Unknown;
    assert DefaultSubject == SubjectPrefix + rest;
    PrefixStarts(SubjectPrefix, rest);
    RemoveAllLeading(SubjectPrefix, rest);
    assert SubjectPrefix[0] !in rest;
    AbsentFirstChar(rest, SubjectPrefix);
    RemoveAllAbsent(rest, SubjectPrefix);
    StripLeadingSpace(' ', Unknown);
    VisibleNotSpace(Unknown[0]);
    VisibleNotSpace(Unknown[|Unknown| - 1]);
    StripUnchanged(Unknown);
  }

  /** The parsed date is `None` when the date is "Unknown" or no format
      parses; otherwise it is the result of the first format, in list order,
      that parses. */
  lemma {:induction false} DateRule(date: string, strptime: DateParser)
    ensures date == Unknown ==> ParsedDate(date, strptime) == None
    ensures ParsedDate(date, strptime) == None && date != Unknown ==>
              forall i :: 0 <= i < |DateFormats| ==> strptime(DateFormats[i], date).None?
    ensures ParsedDate(date, strptime).Some? ==>
              exists i :: 0 <= i < |DateFormats| && strptime(DateFormats[i], date) == ParsedDate(date, strptime)
                          && forall j :: 0 <= j < i ==> strptime(DateFormats[j], date).None?
  {
  }

  /** Without a blank line, every field takes its default and the body is the
      whole content, trimmed. */
  lemma {:induction false} NoBlankLine(content: string, strptime: DateParser)
    requires !Contains(content, BlankLine)
    ensures Parsed(content, strptime)
        == ParsedEmail(Unknown, Unknown, Unknown, Unknown, None, Strip(content), map[])
  {
    assert SplitOnce(content, BlankLine).None?;
    assert HeaderBlock(content) == "";
    SplitWithoutSeparator("", '\n');
    assert HeaderEntry("") == None;
    assert Headers(content) == map[];
    SubjectRule(map[]);
  }
}
