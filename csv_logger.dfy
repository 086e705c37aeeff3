/** The five-column reply logger: it opens the log for appending, writes the
    column header when the file is new, and appends one row of timestamp,
    subject, body, category and reply. `datetime.now()` comes in as the
    text the writer puts in the first cell, and `render` is how the CSV
    writer turns a value into a cell. */
module CsvLogger {
  import opened Wrappers
  import opened Json
  import opened LogFile

  const Header: seq<string> := ["Timestamp", "Subject", "Email Body", "Category", "Generated Reply"]

  /** The data row, or the `KeyError` its construction raises. */
  function ReplyRow(emailData: map<string, Json>, reply: Json, now: string, render: Json -> string)
    : Result<seq<string>, LogError>
  {
    if "email_body" !in emailData then Err(KeyError("email_body"))
    else Ok([now,
             render(Get(emailData, "subject", UnknownText)),
             render(emailData["email_body"]),
             render(Get(emailData, "category", UnknownText)),
             render(reply)])
  }

  /** The file after a call and what the call returns. The file is opened
      and the header written before the row is built, so a call that raises
      still creates the file with its header. */
  function Log(f: FileView, emailData: map<string, Json>, reply: Json, now: string, render: Json -> string)
    : (FileView, Result<(), LogError>)
  {
    var ready := if f.present then f else AppendRow(f, Header);
    match ReplyRow(emailData, reply, now, render)
    case Err(e) => (ready, Err(e))
    case Ok(row) => (AppendRow(ready, row), Ok(()))
  }

  /** `log_to_csv(email_data, reply)`. */
  method LogToCsv(file: CsvFile, emailData: map<string, Json>, reply: Json, now: string, render: Json -> string)
    returns (result: Result<(), LogError>)
    modifies file
    ensures (file.View(), result) == Log(old(file.View()), emailData, reply, now, render)
  {
    var fileExists := file.IsFile();
    file.OpenForAppend();
    if !fileExists {
      file.WriteRow(Header);
    }
    var row := ReplyRow(emailData, reply, now, render);
    if row.Err? {
      return Err(row.error);
    }
    file.WriteRow(row.value);
    result := Ok(());
  }

  // ---------------------------------------------------------------------
  // Properties of the logger

  /** The row is timestamp, subject, body, category and reply in that
      order, with "Unknown" for a missing subject or category; only a
      missing body is an error. A writer that puts a string value into
      its cell unchanged writes the default as the text "Unknown". */
  lemma {:induction false} ReplyRowShape(emailData: map<string, Json>, reply: Json, now: string, render: Json -> string)
    ensures ReplyRow(emailData, reply, now, render).Err? <==> "email_body" !in emailData
    ensures ReplyRow(emailData, reply, now, render).Ok? ==>
              var row := ReplyRow(emailData, reply, now, render).value;
              && |row| == |Header| == 5
              && row[0] == now
              && row[1] == render(if "subject" in emailData then emailData["subject"] else UnknownText)
              && row[2] == render(emailData["email_body"])
              && row[3] == render(if "category" in emailData then emailData["category"] else UnknownText)
              && row[4] == render(reply)
    ensures (forall s :: render(JString(s)) == s) && ReplyRow(emailData, reply, now, render).Ok? ==>
              var row := ReplyRow(emailData, reply, now, render).value;
              && ("subject" !in emailData ==> row[1] == "Unknown")
              && ("category" !in emailData ==> row[3] == "Unknown")
  {
  }

  /** Only subject, body and category are read from the record: any other
      key, `intent` and `entities` among them, leaves the row as it is. */
  lemma {:induction false} OtherKeysIgnored(emailData: map<string, Json>, key: string, value: Json, reply: Json, now: string,
                         render: Json -> string)
    requires key !in {"subject", "email_body", "category"}
    ensures ReplyRow(emailData[key := value], reply, now, render) == ReplyRow(emailData, reply, now, render)
  {
    var d := emailData[key := value];
    assert ("email_body" in d) == ("email_body" in emailData);
    assert Get(d, "subject", UnknownText) == Get(emailData, "subject", UnknownText);
    assert Get(d, "category", UnknownText) == Get(emailData, "category", UnknownText);
  }

  /** The header is written exactly when the file did not exist; a call
      that succeeds then appends one row; the rows before are untouched. A
      call that raises leaves the file created, with the header it wrote
      and no data row. */
  lemma {:induction false} LogAppends(f: FileView, emailData: map<string, Json>, reply: Json, now: string, render: Json -> string)
    ensures var (g, r) := Log(f, emailData, reply, now, render);
            var header := if f.present then [] else [Header];
            && g.present
            && (r.Err? ==> g.rows == f.rows + header)
            && (r.Ok? ==> g.rows == f.rows + header + [ReplyRow(emailData, reply, now, render).value])
  {
  }

  /** A record without a body, logged to a new file, leaves a file that
      holds only the header. */
  lemma {:induction false} HeaderOnlyAfterMissingBody(emailData: map<string, Json>, reply: Json, now: string, render: Json -> string)
    requires "email_body" !in emailData
    ensures Log(Missing, emailData, reply, now, render) == (FileView(true, [Header]), Err(KeyError("email_body")))
  {
  }
}
