/** The logger and the reader together: what a sequence of logging calls
    from no file leaves, and that reading it back gives the logged records
    when `json.loads` reads back the text `json.dumps` wrote for each. */
module LogRoundTrip {
  import opened Wrappers
  import opened Json
  import opened LogFile
  import opened DataLogger
  import opened ReplyData

  /** On a file that is already there, calls that all succeed append one
      row per record, in call order, and nothing else. */
  lemma {:induction false} LogAllRows(f: FileView, entries: seq<Entry>, dumps: Json -> string)
    requires f.present
    requires forall i :: 0 <= i < |entries| ==> HasBody(entries[i])
    ensures LogAll(f, entries, dumps) == FileView(true, f.rows + Rows(States(entries), dumps))
    decreases |entries|
  {
    if entries == [] {
      assert Rows(States(entries), dumps) == [];
      assert f.rows + [] == f.rows;
    } else {
      var e := entries[0];
      var row := [dumps(StateOf(e))];
      var rest := Rows(States(entries[1..]), dumps);
      LogStep(f, e, dumps);
      LogAllRows(FileView(true, f.rows + [row]), entries[1..], dumps);
      RowsOfTail(entries, dumps);
      AppendAssoc(f.rows, [row], rest);
    }
  }

  /** One call with a body on a file that is there appends its row. */
  lemma {:induction false} LogStep(f: FileView, e: Entry, dumps: Json -> string)
    requires f.present && HasBody(e)
    ensures Log(f, e.emailData, e.reply, e.now, dumps).0 == FileView(true, f.rows + [[dumps(StateOf(e))]])
  {
    LogAppends(f, e.emailData, e.reply, e.now, dumps);
    assert f.rows + [] == f.rows;
  }

  lemma {:induction false} AppendAssoc(a: seq<seq<string>>, b: seq<seq<string>>, c: seq<seq<string>>)
    ensures a + b + c == a + (b + c)
  {
  }

  /** The rows of the records of some entries: the first entry's row, then
      those of the others. */
  lemma {:induction false} RowsOfTail(entries: seq<Entry>, dumps: Json -> string)
    requires forall i :: 0 <= i < |entries| ==> HasBody(entries[i])
    requires entries != []
    ensures Rows(States(entries), dumps) == [[dumps(StateOf(entries[0]))]] + Rows(States(entries[1..]), dumps)
  {
    var states := States(entries);
    assert States(entries[1..]) == states[1..];
    var rs := Rows(states, dumps);
    assert rs == [rs[0]] + Rows(states[1..], dumps);
  }

  /** From no file, calls that all succeed leave the header and then one
      row per record, in call order. */
  lemma {:induction false} LogAllFromMissing(entries: seq<Entry>, dumps: Json -> string)
    requires forall i :: 0 <= i < |entries| ==> HasBody(entries[i])
    requires entries != []
    ensures LogAll(Missing, entries, dumps) == FileView(true, [Header] + Rows(States(entries), dumps))
  {
    var e := entries[0];
    var row := [dumps(StateOf(e))];
    var rest := Rows(States(entries[1..]), dumps);
    LogFirst(e, dumps);
    LogAllRows(FileView(true, [Header] + [row]), entries[1..], dumps);
    RowsOfTail(entries, dumps);
    AppendAssoc([Header], [row], rest);
  }

  /** The first call creates the file with the header and its row. */
  lemma {:induction false} LogFirst(e: Entry, dumps: Json -> string)
    requires HasBody(e)
    ensures Log(Missing, e.emailData, e.reply, e.now, dumps).0 == FileView(true, [Header] + [[dumps(StateOf(e))]])
  {
    LogAppends(Missing, e.emailData, e.reply, e.now, dumps);
    assert [] + [Header] == [Header];
  }

  /** Round trip: from no file, logging records and loading the file gives
      the records back, when `json.loads` reads back the text `json.dumps`
      wrote for each of them. */
  lemma {:induction false} LogThenLoad(entries: seq<Entry>, dumps: Json -> string, loads: Loads)
    requires forall i :: 0 <= i < |entries| ==> HasBody(entries[i])
    requires forall i :: 0 <= i < |entries| ==> loads(dumps(StateOf(entries[i]))) == Decoded(StateOf(entries[i]))
    ensures LoadReplyData(LogAll(Missing, entries, dumps), loads) == States(entries)
  {
    if entries == [] {
      assert LogAll(Missing, entries, dumps) == Missing;
      assert States(entries) == [];
    } else {
      var states := States(entries);
      LogAllFromMissing(entries, dumps);
      DecodeWritten(states, dumps, loads);
      LoadWritten(LogAll(Missing, entries, dumps), states, dumps, loads);
    }
  }
}
