/** The legacy line-based parser: the file is read as a list of lines, the
    subject is the first line that starts with "subject:" in any case, and
    the body is everything after the first line that is a bare newline. The
    file read is replaced by the `content` parameter. */
module LegacyParser {
  import opened Wrappers
  import opened Strings
  import EmailProcessor

  datatype LegacyEmail = LegacyEmail(subject: string, emailBody: string)

  /** `list.index` raises `ValueError` when the bare-newline line is missing. */
  datatype LegacyError = ValueError

  const DefaultSubject := "Subject: Unknown"
  const NewlineLine := "\n"

  /** The length of the first line of a non-empty text, its newline included. */
  function LineLength(s: string): (n: nat)
    requires s != []
    ensures 1 <= n <= |s|
    ensures forall k :: 0 <= k < n - 1 ==> s[k] != '\n'
    ensures s[n - 1] == '\n' || n == |s|
  {
    if s[0] == '\n' || |s| == 1 then 1 else 1 + LineLength(s[1..])
  }

  /** `f.readlines()`: the text cut after every newline, each line keeping it. */
  function Lines(s: string): seq<string>
    decreases |s|
  {
    if s == [] then [] else [s[..LineLength(s)]] + Lines(s[LineLength(s)..])
  }

  /** A line as `readlines` returns it: non-empty, a newline only at its end,
      and one there unless it is the last line. */
  predicate IsLine(line: string, last: bool) {
    && line != []
    && (forall j :: 0 <= j < |line| - 1 ==> line[j] != '\n')
    && (last || line[|line| - 1] == '\n')
  }

  /** The lines put back together give the text. */
  lemma {:induction false} LinesJoin(s: string)
    ensures Concat(Lines(s)) == s
    decreases |s|
  {
    if s != [] {
      var n := LineLength(s);
      LinesJoin(s[n..]);
      assert s == s[..n] + s[n..];
    }
  }

  /** Every piece has the shape of a line. */
  lemma {:induction false} LinesShape(s: string)
    ensures forall k :: 0 <= k < |Lines(s)| ==> IsLine(Lines(s)[k], k == |Lines(s)| - 1)
    decreases |s|
  {
    if s != [] {
      var n := LineLength(s);
      var rest := Lines(s[n..]);
      var lines := Lines(s);
      LinesShape(s[n..]);
      FirstLineShape(s);
      assert rest == [] <==> n == |s|;
      assert lines == [s[..n]] + rest;
      forall k | 1 <= k < |lines|
        ensures IsLine(lines[k], k == |lines| - 1)
      {
        assert lines[k] == rest[k - 1];
      }
    }
  }

  /** The first piece is a line, the last one when it reaches the end. */
  lemma {:induction false} FirstLineShape(s: string)
    requires s != []
    ensures IsLine(s[..LineLength(s)], LineLength(s) == |s|)
  {
  }

  /** `lines.index(x)`: the first position holding `x`, if any. */
  function IndexOfLine(lines: seq<string>, x: string): (r: Option<nat>)
    ensures r.Some? ==> r.value < |lines| && lines[r.value] == x
    ensures r.Some? ==> forall j :: 0 <= j < r.value ==> lines[j] != x
    ensures r.None? ==> forall j :: 0 <= j < |lines| ==> lines[j] != x
  {
    if lines == [] then None
    else if lines[0] == x then Some(0)
    else match IndexOfLine(lines[1..], x)
      case None => None
      case Some(k) => Some(k + 1)
  }

  predicate IsSubjectLine(line: string) {
    StartsWith(ToLower(line), "subject:")
  }

  /** The position of the first subject line, if any. */
  function SubjectLineIndex(lines: seq<string>): (r: Option<nat>)
    ensures r.Some? ==> r.value < |lines| && IsSubjectLine(lines[r.value])
    ensures r.Some? ==> forall j :: 0 <= j < r.value ==> !IsSubjectLine(lines[j])
    ensures r.None? ==> forall j :: 0 <= j < |lines| ==> !IsSubjectLine(lines[j])
  {
    if lines == [] then None
    else if IsSubjectLine(lines[0]) then Some(0)
    else match SubjectLineIndex(lines[1..])
      case None => None
      case Some(k) => Some(k + 1)
  }

  /** `next((line for line in lines if ...), "Subject: Unknown")`. */
  function SubjectOf(lines: seq<string>): string {
    match SubjectLineIndex(lines)
    case None => DefaultSubject
    case Some(k) => lines[k]
  }

  /** The legacy `parse_email` on the text of the file. */
  function ParseLegacy(content: string): Result<LegacyEmail, LegacyError> {
    var lines := Lines(content);
    match IndexOfLine(lines, NewlineLine)
    case None => Err(ValueError)
    case Some(k) => Ok(LegacyEmail(SubjectOf(lines), Strip(Concat(lines[k + 1..]))))
  }

  // ---------------------------------------------------------------------
  // Properties of the legacy parser

  /** The subject is the first subject line, returned as read (prefix and
      newline kept), or the default when no line qualifies. */
  lemma {:induction false} SubjectRule(content: string)
    requires ParseLegacy(content).Ok?
    ensures var lines := Lines(content);
            var subject := ParseLegacy(content).value.subject;
            && (SubjectLineIndex(lines).None? ==> subject == DefaultSubject)
            && (SubjectLineIndex(lines).Some? ==>
                  subject == lines[SubjectLineIndex(lines).value] && IsSubjectLine(subject))
  {
  }

  /** The text after the first bare-newline line, before trimming. */
  function Rest(s: string): Option<string> {
    var lines := Lines(s);
    match IndexOfLine(lines, NewlineLine)
    case None => None
    case Some(k) => Some(Concat(lines[k + 1..]))
  }

  lemma {:induction false} RestIsBody(content: string)
    ensures ParseLegacy(content).Err? <==> Rest(content).None?
    ensures ParseLegacy(content).Ok? ==> ParseLegacy(content).value.emailBody == Strip(Rest(content).value)
  {
  }

  /** How `Rest` proceeds line by line: a text opening with a newline has a
      bare-newline first line; otherwise the first line is skipped. */
  lemma {:induction false} RestStep(s: string)
    requires s != []
    ensures s[0] == '\n' ==> Rest(s) == Some(s[1..])
    ensures s[0] != '\n' ==> Rest(s) == Rest(s[LineLength(s)..])
  {
    var n := LineLength(s);
    var lines := Lines(s);
    var tail := Lines(s[n..]);
    assert lines == [s[..n]] + tail;
    if s[0] == '\n' {
      assert s[..n] == NewlineLine;
      assert lines[1..] == tail;
      LinesJoin(s[1..]);
    } else {
      assert s[..n][0] == s[0];
      assert lines[0] != NewlineLine;
      assert lines[1..] == tail;
      match IndexOfLine(tail, NewlineLine)
      case None =>
      case Some(k) =>
        assert IndexOfLine(lines, NewlineLine) == Some(k + 1);
        assert lines[k + 2..] == tail[k + 1..];
    }
  }

  /** Shifting a text by a prefix with no blank line in it, nor one formed
      across its end, shifts the first blank line by the prefix's length. */
  lemma {:induction false} ShiftedBlankLine(s: string, n: nat)
    requires 0 < n <= |s|
    requires forall j :: 0 <= j < n ==> !OccursAt(s, EmailProcessor.BlankLine, j)
    ensures IndexOf(s, EmailProcessor.BlankLine).None? <==> IndexOf(s[n..], EmailProcessor.BlankLine).None?
    ensures IndexOf(s, EmailProcessor.BlankLine).Some? ==>
              IndexOf(s, EmailProcessor.BlankLine).value == n + IndexOf(s[n..], EmailProcessor.BlankLine).value
  {
    var p := EmailProcessor.BlankLine;
    var t := s[n..];
    forall j: nat | n <= j
      ensures OccursAt(s, p, j) <==> OccursAt(t, p, j - n)
    {
      if j + 2 <= |s| {
        assert s[j..j + 2] == t[j - n..j - n + 2];
      }
    }
    match IndexOf(t, p)
    case None =>
      forall j: nat
        ensures !OccursAt(s, p, j)
      {
        if n <= j {
          assert !OccursAt(t, p, j - n);
        }
      }
    case Some(i) =>
      assert OccursAt(s, p, n + i);
  }

  /** No blank line starts inside the first line, except at its newline. */
  lemma {:induction false} FirstLineHasNoBlank(s: string)
    requires s != []
    ensures forall j: nat :: j < LineLength(s) - 1 ==> !OccursAt(s, EmailProcessor.BlankLine, j)
  {
    forall j: nat | j < LineLength(s) - 1
      ensures !OccursAt(s, EmailProcessor.BlankLine, j)
    {
      if j + 2 <= |s| {
        assert s[j..j + 2][0] == s[j];
      }
    }
  }

  /** A text of one line holds no blank line. */
  lemma {:induction false} OneLineHasNoBlank(s: string)
    requires s != [] && LineLength(s) == |s|
    ensures IndexOf(s, EmailProcessor.BlankLine).None?
  {
    FirstLineHasNoBlank(s);
  }

  /** A line followed by a bare newline forms the first blank line. */
  lemma {:induction false} BlankAfterFirstLine(s: string)
    requires s != [] && LineLength(s) < |s| && s[LineLength(s)] == '\n'
    ensures IndexOf(s, EmailProcessor.BlankLine) == Some(LineLength(s) - 1)
  {
    var n := LineLength(s);
    FirstLineHasNoBlank(s);
    assert s[n - 1..n + 1] == EmailProcessor.BlankLine;
    FirstOccurrence(s, EmailProcessor.BlankLine, n - 1);
  }

  /** A line followed by anything but a newline holds no blank line. */
  lemma {:induction false} NoBlankThroughFirstLine(s: string)
    requires s != [] && LineLength(s) < |s| && s[LineLength(s)] != '\n'
    ensures forall j :: 0 <= j < LineLength(s) ==> !OccursAt(s, EmailProcessor.BlankLine, j)
  {
    var n := LineLength(s);
    FirstLineHasNoBlank(s);
    forall j | 0 <= j < n
      ensures !OccursAt(s, EmailProcessor.BlankLine, j)
    {
      if j == n - 1 && j + 2 <= |s| {
        assert s[j..j + 2][1] == s[n];
      }
    }
  }

  /** For a text that does not open with a newline, the legacy parser finds
      a body exactly when the text holds a blank line, and its body is the
      text after the first one: the rich parser's body block. */
  lemma {:induction false} RestIsBodyBlock(s: string)
    requires s == [] || s[0] != '\n'
    ensures Rest(s).Some? <==> Contains(s, EmailProcessor.BlankLine)
    ensures Rest(s).Some? ==> Rest(s).value == EmailProcessor.BodyBlock(s)
    decreases |s|
  {
    var p := EmailProcessor.BlankLine;
    EmailProcessor.BlocksAtFirstBlankLine(s);
    if s != [] {
      var n := LineLength(s);
      var t := s[n..];
      RestStep(s);
      if t == [] {
        OneLineHasNoBlank(s);
      } else if t[0] == '\n' {
        BlankAfterFirstLine(s);
        RestStep(t);
      } else {
        NoBlankThroughFirstLine(s);
        ShiftedBlankLine(s, n);
        RestIsBodyBlock(t);
        EmailProcessor.BlocksAtFirstBlankLine(t);
        match IndexOf(t, p)
        case None =>
        case Some(i) =>
          assert s[n + i + 2..] == t[i + 2..];
      }
    }
  }

  /** The legacy parser raises exactly when no line is a bare newline: the
      text neither opens with a newline nor holds a blank line. */
  lemma {:induction false} FailsWithoutBlankLine(content: string)
    ensures ParseLegacy(content).Err? <==>
              !StartsWith(content, NewlineLine) && !Contains(content, EmailProcessor.BlankLine)
  {
    RestIsBody(content);
    if content != [] && content[0] == '\n' {
      RestStep(content);
      assert content[..1] == NewlineLine;
    } else {
      if content != [] {
        assert content[..1][0] == content[0];
      }
      assert !StartsWith(content, NewlineLine);
      RestIsBodyBlock(content);
    }
  }

  /** Where both parsers take a body from a text that does not open with a
      newline, they take the same one. */
  lemma {:induction false} AgreesWithRichParser(content: string, strptime: EmailProcessor.DateParser)
    requires content == [] || content[0] != '\n'
    requires ParseLegacy(content).Ok?
    ensures ParseLegacy(content).value.emailBody == EmailProcessor.Parsed(content, strptime).emailBody
  {
    RestIsBody(content);
    RestIsBodyBlock(content);
    EmailProcessor.BodyField(content, strptime);
  }
}
