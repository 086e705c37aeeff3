/** A CSV log file as its two loggers see it: whether it is there, and its
    rows of cells. Quoting and the bytes on disk are below this level; a row
    written is the row read back. */
module LogFile {
  import opened Json

  /** `email_data["email_body"]` on a record without that key, the one
      error either logger raises. */
  datatype LogError = KeyError(key: string)

  /** The value both loggers write for a missing subject or category. */
  const UnknownText := JString("Unknown")

  datatype FileView = FileView(present: bool, rows: seq<seq<string>>)

  /** The file before the first call. */
  const Missing := FileView(false, [])

  /** The file after `open(path, mode='a')` and one `writerow(row)`. */
  function AppendRow(f: FileView, row: seq<string>): (g: FileView)
    ensures g.present && |g.rows| == |f.rows| + 1
    ensures g.rows[..|f.rows|] == f.rows && g.rows[|f.rows|] == row
  {
    FileView(true, f.rows + [row])
  }

  /** The log file, changed in place by opening it for appending and by
      writing rows to it. */
  class CsvFile {
    var present: bool
    var rows: seq<seq<string>>

    constructor (view: FileView)
      ensures View() == view
    {
      present := view.present;
      rows := view.rows;
    }

    function View(): FileView
      reads this
    {
      FileView(present, rows)
    }

    /** `os.path.isfile(path)`. */
    function IsFile(): bool
      reads this
    {
      present
    }

    /** `open(path, mode='a')`: creates the file when it is missing and
        leaves its rows as they are. */
    method OpenForAppend()
      modifies this
      ensures present && rows == old(rows)
    {
      present := true;
    }

    /** `writer.writerow(row)` on the open file. */
    method WriteRow(row: seq<string>)
      requires present
      modifies this
      ensures View() == AppendRow(old(View()), row)
    {
      rows := rows + [row];
    }
  }
}
