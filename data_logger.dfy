/** The JSON-state logger: each call appends one row holding the whole email
    state as one JSON text, after a one-cell header when the file is new.
    `json.dumps` and `datetime.now()` are passed in. */
module DataLogger {
  import opened Wrappers
  import opened Json
  import opened LogFile

  const Header: seq<string> := ["FullEmailStateJSON"]

  /** The keys of the logged state. */
  const StateKeys: set<string> := {"timestamp", "subject", "email_body", "category", "intent", "entities", "reply"}

  /** The `full_state` record, or the `KeyError` its construction raises. */
  function FullState(emailData: map<string, Json>, reply: Json, now: string): Result<Json, LogError> {
    if "email_body" !in emailData then Err(KeyError("email_body"))
    else Ok(JObject(map[
      "timestamp" := JString(now),
      "subject" := Get(emailData, "subject", UnknownText),
      "email_body" := emailData["email_body"],
      "category" := Get(emailData, "category", UnknownText),
      "intent" := Get(emailData, "intent", UnknownText),
      "entities" := Get(emailData, "entities", JObject(map[])),
      "reply" := reply]))
  }

  /** The file after a call and what the call returns. The record is built
      before the file is opened, so a call that raises leaves the file as
      it was. */
  function Log(f: FileView, emailData: map<string, Json>, reply: Json, now: string, dumps: Json -> string)
    : (FileView, Result<(), LogError>)
  {
    match FullState(emailData, reply, now)
    case Err(e) => (f, Err(e))
    case Ok(state) =>
      var ready := if f.present then f else AppendRow(f, Header);
      (AppendRow(ready, [dumps(state)]), Ok(()))
  }

  /** `log_to_csv(email_data, reply)`. */
  method LogToCsv(file: CsvFile, emailData: map<string, Json>, reply: Json, now: string, dumps: Json -> string)
    returns (result: Result<(), LogError>)
    modifies file
    ensures (file.View(), result) == Log(old(file.View()), emailData, reply, now, dumps)
  {
    var fileExists := file.IsFile();
    var fullState := FullState(emailData, reply, now);
    if fullState.Err? {
      return Err(fullState.error);
    }
    file.OpenForAppend();
    if !fileExists {
      file.WriteRow(Header);
    }
    file.WriteRow([dumps(fullState.value)]);
    result := Ok(());
  }

  /** One call per entry, in order: `(email_data, reply, now)`. */
  datatype Entry = Entry(emailData: map<string, Json>, reply: Json, now: string)

  function LogAll(f: FileView, entries: seq<Entry>, dumps: Json -> string): FileView
    decreases |entries|
  {
    if entries == [] then f
    else
      var e := entries[0];
      LogAll(Log(f, e.emailData, e.reply, e.now, dumps).0, entries[1..], dumps)
  }

  predicate HasBody(e: Entry) {
    "email_body" in e.emailData
  }

  /** The records the entries log. */
  function States(entries: seq<Entry>): (states: seq<Json>)
    requires forall i :: 0 <= i < |entries| ==> HasBody(entries[i])
    ensures |states| == |entries|
    ensures forall i :: 0 <= i < |entries| ==> states[i] == StateOf(entries[i])
  {
    seq(|entries|, i requires 0 <= i < |entries| && HasBody(entries[i]) => StateOf(entries[i]))
  }

  /** The record an entry with a body logs. */
  function StateOf(e: Entry): Json
    requires HasBody(e)
  {
    FullState(e.emailData, e.reply, e.now).value
  }

  /** The data rows a sequence of records is written as. */
  function Rows(states: seq<Json>, dumps: Json -> string): (rows: seq<seq<string>>)
    ensures |rows| == |states|
    ensures forall i :: 0 <= i < |states| ==> rows[i] == [dumps(states[i])]
  {
    seq(|states|, i requires 0 <= i < |states| => [dumps(states[i])])
  }

  // ---------------------------------------------------------------------
  // Properties of the logger

  /** The record holds exactly the seven keys; missing subject, category and
      intent become "Unknown", missing entities `{}`, the reply is stored as
      given; only a missing body is an error. */
  lemma {:induction false} FullStateShape(emailData: map<string, Json>, reply: Json, now: string)
    ensures FullState(emailData, reply, now).Err? <==> "email_body" !in emailData
    ensures FullState(emailData, reply, now).Err? ==> FullState(emailData, reply, now).error == KeyError("email_body")
    ensures FullState(emailData, reply, now).Ok? ==>
              var state := FullState(emailData, reply, now).value;
              && state.JObject? && state.fields.Keys == StateKeys
              && state.fields["timestamp"] == JString(now)
              && state.fields["email_body"] == emailData["email_body"]
              && state.fields["reply"] == reply
              && state.fields["subject"] == (if "subject" in emailData then emailData["subject"] else UnknownText)
              && state.fields["category"] == (if "category" in emailData then emailData["category"] else UnknownText)
              && state.fields["intent"] == (if "intent" in emailData then emailData["intent"] else UnknownText)
              && state.fields["entities"] == (if "entities" in emailData then emailData["entities"] else JObject(map[]))
  {
  }

  /** A call that succeeds appends the header exactly when the file did not
      exist, then one single-cell row; the rows before are untouched. A call
      that raises changes nothing. */
  lemma {:induction false} LogAppends(f: FileView, emailData: map<string, Json>, reply: Json, now: string, dumps: Json -> string)
    ensures var (g, r) := Log(f, emailData, reply, now, dumps);
            && (r.Err? ==> g == f)
            && (r.Ok? ==>
                  && g.present
                  && g.rows == f.rows + (if f.present then [] else [Header])
                               + [[dumps(FullState(emailData, reply, now).value)]])
  {
  }

}
