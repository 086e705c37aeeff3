/** The reply log over time, as the dashboard reads it: a sequence of
    logging calls from no file, and `load_reply_data`, which reads the file
    back by decoding the first cell of every row after the header.
    `json.dumps` and `json.loads` are passed in. */
module ReplyData {
  import opened Wrappers
  import opened Json
  import opened LogFile
  import opened DataLogger

  /** `json.loads(row[0])` for every row: `None` as soon as a row is empty
      (the `IndexError` of `row[0]`) or its first cell does not decode. */
  function DecodeRows(rows: seq<seq<string>>, loads: Loads): Option<seq<Json>> {
    if rows == [] then Some([])
    else if rows[0] == [] then None
    else
      match loads(rows[0][0])
      case Malformed => None
      case Decoded(j) =>
        match DecodeRows(rows[1..], loads)
        case None => None
        case Some(js) => Some([j] + js)
  }

  /** `load_reply_data(log_path)`: the decoded records, or none when the file
      is missing, holds at most the header, or any row fails to decode (the
      exception is caught and an empty frame returned). */
  function LoadReplyData(f: FileView, loads: Loads): seq<Json> {
    if !f.present || |f.rows| <= 1 then []
    else
      match DecodeRows(f.rows[1..], loads)
      case None => []
      case Some(js) => js
  }

  // ---------------------------------------------------------------------
  // Properties of the reader

  /** The reader finds nothing in a missing file or one holding only the
      header. */
  lemma {:induction false} LoadNothing(f: FileView, loads: Loads)
    requires !f.present || |f.rows| <= 1
    ensures LoadReplyData(f, loads) == []
  {
  }

  /** Decoding the rows the logger writes gives back its records, when
      `loads` reads back what `dumps` wrote for each of them. */
  lemma {:induction false} DecodeWritten(states: seq<Json>, dumps: Json -> string, loads: Loads)
    requires forall i :: 0 <= i < |states| ==> loads(dumps(states[i])) == Decoded(states[i])
    ensures DecodeRows(Rows(states, dumps), loads) == Some(states)
    decreases |states|
  {
    if states != [] {
      var rows := Rows(states, dumps);
      var tail := states[1..];
      assert rows[1..] == Rows(tail, dumps);
      assert forall i :: 0 <= i < |tail| ==> tail[i] == states[i + 1];
      DecodeWritten(tail, dumps, loads);
      assert states == [states[0]] + tail;
    }
  }

  /** A file holding the header and the rows of some records loads as
      those records. */
  lemma {:induction false} LoadWritten(f: FileView, states: seq<Json>, dumps: Json -> string, loads: Loads)
    requires f.present && f.rows == [Header] + Rows(states, dumps) && states != []
    requires DecodeRows(Rows(states, dumps), loads) == Some(states)
    ensures LoadReplyData(f, loads) == states
  {
    assert f.rows[1..] == Rows(states, dumps);
    LoadDecoded(f, loads, states);
  }

  lemma {:induction false} LoadDecoded(f: FileView, loads: Loads, records: seq<Json>)
    requires f.present && |f.rows| > 1 && DecodeRows(f.rows[1..], loads) == Some(records)
    ensures LoadReplyData(f, loads) == records
  {
  }

  /** One row that fails to decode empties the whole result. */
  lemma {:induction false} OneBadRowEmpties(f: FileView, loads: Loads, k: nat)
    requires f.present && 1 <= k < |f.rows|
    requires f.rows[k] == [] || loads(f.rows[k][0]).Malformed?
    ensures LoadReplyData(f, loads) == []
  {
    DecodeFailsAt(f.rows[1..], loads, k - 1);
  }

  lemma {:induction false} DecodeFailsAt(rows: seq<seq<string>>, loads: Loads, k: nat)
    requires k < |rows| && (rows[k] == [] || loads(rows[k][0]).Malformed?)
    ensures DecodeRows(rows, loads).None?
    decreases k
  {
    if k > 0 && rows[0] != [] && loads(rows[0][0]).Decoded? {
      DecodeFailsAt(rows[1..], loads, k - 1);
    }
  }
}
