/** The event log of the conversion session: entries are only ever appended. */
module EventLog {

  /** The `type` field of a log entry. */
  datatype LogKind = Info | Success | Warning | Error

  /** The fresh id (`crypto.randomUUID()`) and the time (`new Date()`) a new entry
      receives; both come from outside the model. */
  datatype Stamp = Stamp(id: string, time: int)

  datatype LogEntry = LogEntry(id: string, timestamp: int, kind: LogKind, message: string)

  /** What an entry says, without its id and time. */
  datatype Note = Note(kind: LogKind, message: string)

  function Entry(st: Stamp, n: Note): LogEntry
  {
    LogEntry(st.id, st.time, n.kind, n.message)
  }

  function NoteOf(e: LogEntry): Note
  {
    Note(e.kind, e.message)
  }

  /** The entries a handler appends when it logs `notes` one after the other,
      the k-th receiving the k-th stamp. */
  function Stamped(stamps: seq<Stamp>, notes: seq<Note>): (r: seq<LogEntry>)
    requires |notes| <= |stamps|
    ensures |r| == |notes|
    ensures forall k :: 0 <= k < |r| ==> NoteOf(r[k]) == notes[k]
    ensures forall k :: 0 <= k < |r| ==> r[k].id == stamps[k].id && r[k].timestamp == stamps[k].time
  {
    if notes == [] then [] else [Entry(stamps[0], notes[0])] + Stamped(stamps[1..], notes[1..])
  }

  /** The notes of a log, in append order. */
  function Notes(logs: seq<LogEntry>): (r: seq<Note>)
    ensures |r| == |logs|
    ensures forall k :: 0 <= k < |logs| ==> r[k] == NoteOf(logs[k])
  {
    if logs == [] then [] else [NoteOf(logs[0])] + Notes(logs[1..])
  }

  /** Stamping changes nothing of what the notes say. */
  lemma NotesOfStamped(stamps: seq<Stamp>, notes: seq<Note>)
    requires |notes| <= |stamps|
    ensures Notes(Stamped(stamps, notes)) == notes
  {
  }

  /** Appending to the log appends to its notes. */
  lemma NotesAppend(a: seq<LogEntry>, b: seq<LogEntry>)
    ensures Notes(a + b) == Notes(a) + Notes(b)
  {
  }
}
