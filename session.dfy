/** The conversion session of the index page: the current image and result,
    the processing flag, the history, the event log and the settings, and the
    handlers that change them. */
module Session {
  import opened Wrappers
  import opened EventLog
  import opened History
  import opened Upload
  import Decimal

  /** The settings panel's model, confidence threshold and preprocessing switch. */
  datatype Settings = Settings(model: string, confidence: int, preprocessing: bool)

  /** What the confidence slider can produce: 50 to 100 in steps of 5. */
  predicate ValidConfidence(c: int)
  {
    50 <= c <= 100 && c % 5 == 0
  }

  /** What one upload handler works with: the file, the data URL it was read
      into, and the settings captured when the handler was built. */
  datatype Run = Run(file: FileInfo, imageUrl: string, snapshot: Settings)

  /** The five results the simulated recognition picks from. */
  const Samples: seq<string> := [
    "\\frac{-b \\pm \\sqrt{b^2 - 4ac}}{2a}",
    "\\int_{0}^{\\infty} e^{-x^2} dx = \\frac{\\sqrt{\\pi}}{2}",
    "\\sum_{n=1}^{\\infty} \\frac{1}{n^2} = \\frac{\\pi^2}{6}",
    "E = mc^2",
    "\\nabla \\times \\vec{E} = -\\frac{\\partial \\vec{B}}{\\partial t}"
  ]

  const DefaultModel: string := "mathpix-v3"
  const DefaultConfidence: int := 85

  // ----- the messages the handlers log

  function UploadedNote(name: string): Note
  {
    Note(Info, "Image uploaded: " + name)
  }

  function StartingNote(model: string): Note
  {
    Note(Info, "Starting OCR with " + model + "...")
  }

  const PreprocessingNote: Note := Note(Info, "Applying image preprocessing...")
  const AnalyzingNote: Note := Note(Info, "Analyzing mathematical structures...")
  const ThresholdPrefix: string := "Confidence threshold: "

  function ThresholdNote(c: int): Note
  {
    Note(Info, ThresholdPrefix + Decimal.IntString(c) + "%")
  }

  const CompleteNote: Note := Note(Success, "LaTeX extraction complete")
  const ClearedNote: Note := Note(Info, "Cleared current image")
  const LoadedNote: Note := Note(Info, "Loaded from history")
  const RemovedNote: Note := Note(Info, "Removed from history")

  /** What the upload handler logs before it arms its timers. */
  function StartNotes(run: Run): seq<Note>
  {
    [UploadedNote(run.file.name), StartingNote(run.snapshot.model)]
    + (if run.snapshot.preprocessing then [PreprocessingNote] else [])
  }

  /** Everything one run logs, in the order its steps fire. */
  function RunNotes(run: Run): seq<Note>
  {
    StartNotes(run) + [AnalyzingNote, ThresholdNote(run.snapshot.confidence), CompleteNote]
  }

  /** Reads the threshold back out of a threshold message. */
  function ReportedThreshold(message: string): Option<int>
  {
    if |ThresholdPrefix| < |message| && message[..|ThresholdPrefix|] == ThresholdPrefix && message[|message| - 1] == '%'
    then Decimal.ParseInt(message[|ThresholdPrefix|..|message| - 1])
    else None
  }

  /** The threshold message states the run's threshold and nothing else. */
  lemma ThresholdRoundTrip(c: int)
    ensures ReportedThreshold(ThresholdNote(c).message) == Some(c)
  {
    var m := ThresholdNote(c).message;
    var d := Decimal.IntString(c);
    assert m[..|ThresholdPrefix|] == ThresholdPrefix;
    assert m[|ThresholdPrefix|..|m| - 1] == d;
    Decimal.IntStringRoundTrip(c);
  }

  /** The order of a run's log: the upload and model lines, the optional
      preprocessing line, then analysis, the captured threshold and, last and
      only there, the success line. */
  lemma RunNotesOrder(run: Run)
    ensures var ns := RunNotes(run);
      && |ns| == (if run.snapshot.preprocessing then 6 else 5)
      && ns[0] == UploadedNote(run.file.name)
      && ns[1] == StartingNote(run.snapshot.model)
      && ns[|ns| - 3] == AnalyzingNote
      && ns[|ns| - 2] == ThresholdNote(run.snapshot.confidence)
      && ns[|ns| - 1] == CompleteNote
      && (forall k :: 0 <= k < |ns| - 1 ==> ns[k].kind == Info)
  {
  }

  /** The preprocessing line appears exactly when the captured settings ask for it. */
  lemma PreprocessingLineIffEnabled(run: Run)
    ensures PreprocessingNote in RunNotes(run) <==> run.snapshot.preprocessing
  {
    var ns := RunNotes(run);
    if !run.snapshot.preprocessing {
      assert ns == [UploadedNote(run.file.name), StartingNote(run.snapshot.model),
                    AnalyzingNote, ThresholdNote(run.snapshot.confidence), CompleteNote];
      assert UploadedNote(run.file.name).message[0] == 'I';
      assert StartingNote(run.snapshot.model).message[0] == 'S';
      assert ThresholdNote(run.snapshot.confidence).message[0] == 'C';
      assert AnalyzingNote.message[1] == 'n';
      assert PreprocessingNote.message[0] == 'A' && PreprocessingNote.message[1] == 'p';
    } else {
      assert ns[2] == PreprocessingNote;
    }
  }

  /** The threshold line of a run reports the threshold captured at upload. */
  lemma RunReportsCapturedThreshold(run: Run)
    ensures var ns := RunNotes(run);
      |ns| >= 2 && ReportedThreshold(ns[|ns| - 2].message) == Some(run.snapshot.confidence)
  {
    RunNotesOrder(run);
    ThresholdRoundTrip(run.snapshot.confidence);
  }

  /** The notes of a log after a run's start lines and its three timer lines. */
  lemma RunLogNotes(l0: seq<LogEntry>, started: seq<LogEntry>, timed: seq<LogEntry>, run: Run)
    requires Notes(started) == StartNotes(run)
    requires Notes(timed) == [AnalyzingNote, ThresholdNote(run.snapshot.confidence), CompleteNote]
    ensures Notes(l0 + (started + timed)) == Notes(l0) + RunNotes(run)
  {
    NotesAppend(started, timed);
    NotesAppend(l0, started + timed);
  }

  /** `if (item.thumbnail)`: present and not the empty string. */
  predicate Truthy(thumbnail: Option<string>)
  {
    thumbnail.Some? && thumbnail.value != ""
  }

  class ConversionSession {
    var uploadedImage: Option<string>
    var latex: string
    var isProcessing: bool
    var history: seq<HistoryItem>
    var logs: seq<LogEntry>
    var model: string
    var confidence: int
    var preprocessing: bool

    ghost predicate Valid()
      reads this
    {
      |history| <= Capacity && UniqueIds(history) && ValidConfidence(confidence)
    }

    function CurrentSettings(): Settings
      reads this
    {
      Settings(model, confidence, preprocessing)
    }

    /** The initial state of the page. */
    constructor ()
      ensures Valid()
      ensures uploadedImage == None && latex == "" && !isProcessing
      ensures history == [] && logs == []
      ensures CurrentSettings() == Settings(DefaultModel, DefaultConfidence, true)
    {
      uploadedImage := None;
      latex := "";
      isProcessing := false;
      history := [];
      logs := [];
      model := DefaultModel;
      confidence := DefaultConfidence;
      preprocessing := true;
    }

    /** `addLog`: one new entry at the end, earlier entries untouched. */
    method AddLog(kind: LogKind, message: string, stamp: Stamp)
      modifies this`logs
      ensures logs == old(logs) + [LogEntry(stamp.id, stamp.time, kind, message)]
    {
      logs := logs + [LogEntry(stamp.id, stamp.time, kind, message)];
    }

    method SetModel(m: string)
      modifies this`model
      ensures model == m
    {
      model := m;
    }

    method SetConfidence(c: int)
      requires ValidConfidence(c)
      requires Valid()
      modifies this`confidence
      ensures Valid() && confidence == c
    {
      confidence := c;
    }

    method SetPreprocessing(on: bool)
      modifies this`preprocessing
      ensures preprocessing == on
    {
      preprocessing := on;
    }

    /** The part of `handleImageUpload` that runs once the file has been read:
        show the image, raise the processing flag, log the first lines, and
        hand back the run the timers will finish. `snapshot` is the settings
        the handler closed over when it was built, before the file was read;
        a settings change made during the read does not reach it. Nothing
        stops a second upload while one is processing. */
    method HandleImageUpload(snapshot: Settings, file: FileInfo, imageUrl: string, stamps: seq<Stamp>)
      returns (run: Run)
      requires |stamps| >= 3
      modifies this`uploadedImage, this`isProcessing, this`logs
      ensures run == Run(file, imageUrl, snapshot)
      ensures uploadedImage == Some(imageUrl) && isProcessing
      ensures logs == old(logs) + Stamped(stamps, StartNotes(run))
    {
      run := Run(file, imageUrl, snapshot);
      uploadedImage := Some(imageUrl);
      AddLog(Info, "Image uploaded: " + file.name, stamps[0]);
      isProcessing := true;
      AddLog(Info, "Starting OCR with " + snapshot.model + "...", stamps[1]);
      if snapshot.preprocessing {
        AddLog(Info, "Applying image preprocessing...", stamps[2]);
      }
    }

    /** The first timer. */
    method AnalyzeTimer(stamp: Stamp)
      modifies this`logs
      ensures logs == old(logs) + [Entry(stamp, AnalyzingNote)]
    {
      AddLog(Info, "Analyzing mathematical structures...", stamp);
    }

    /** The second timer: it reports the run's captured threshold, whatever
        the setting is now. */
    method ThresholdTimer(run: Run, stamp: Stamp)
      modifies this`logs
      ensures logs == old(logs) + [Entry(stamp, ThresholdNote(run.snapshot.confidence))]
    {
      AddLog(Info, ThresholdPrefix + Decimal.IntString(run.snapshot.confidence) + "%", stamp);
    }

    /** The third timer: the recognised result becomes the current LaTeX, the
        processing flag drops, and the result goes to the front of the history
        with the run's own image as thumbnail. It runs even after a clear. */
    method CompletionTimer(run: Run, result: string, stamp: Stamp, itemId: string, now: int)
      requires Valid()
      requires result in Samples
      requires itemId !in Ids(history)
      modifies this`latex, this`isProcessing, this`logs, this`history
      ensures Valid()
      ensures latex == result && !isProcessing
      ensures logs == old(logs) + [Entry(stamp, CompleteNote)]
      ensures history == InsertFront(HistoryItem(itemId, result, now, Some(run.imageUrl)), old(history))
    {
      latex := result;
      isProcessing := false;
      AddLog(Success, "LaTeX extraction complete", stamp);
      var item := HistoryItem(itemId, result, now, Some(run.imageUrl));
      InsertKeepsUnique(item, history);
      history := InsertFront(item, history);
    }

    /** `handleClear`: pending timers are not cancelled. */
    method HandleClear(stamp: Stamp)
      modifies this`uploadedImage, this`latex, this`logs
      ensures uploadedImage == None && latex == ""
      ensures logs == old(logs) + [Entry(stamp, ClearedNote)]
    {
      uploadedImage := None;
      latex := "";
      AddLog(Info, "Cleared current image", stamp);
    }

    /** `handleHistorySelect`: the item need not be in the history, and an
        empty thumbnail leaves the current image alone. */
    method HandleHistorySelect(item: HistoryItem, stamp: Stamp)
      modifies this`uploadedImage, this`latex, this`logs
      ensures latex == item.latex
      ensures uploadedImage == if Truthy(item.thumbnail) then item.thumbnail else old(uploadedImage)
      ensures logs == old(logs) + [Entry(stamp, LoadedNote)]
    {
      latex := item.latex;
      if item.thumbnail.Some? && item.thumbnail.value != "" {
        uploadedImage := item.thumbnail;
      }
      AddLog(Info, "Loaded from history", stamp);
    }

    /** `handleHistoryDelete`: logs even when no item had the id. */
    method HandleHistoryDelete(id: string, stamp: Stamp)
      requires Valid()
      modifies this`history, this`logs
      ensures Valid()
      ensures history == RemoveById(old(history), id)
      ensures logs == old(logs) + [Entry(stamp, RemovedNote)]
    {
      RemoveKeepsUnique(history, id);
      history := RemoveById(history, id);
      AddLog(Info, "Removed from history", stamp);
    }

    // ----- runs of several handlers

    /** One upload with its three timers firing in order and nothing in
        between: the log grows by exactly the run's notes. */
    method ProcessUpload(file: FileInfo, imageUrl: string, result: string,
                         stamps: seq<Stamp>, itemId: string, now: int) returns (run: Run)
      requires Valid()
      requires |stamps| == 6
      requires result in Samples
      requires itemId !in Ids(history)
      modifies this`uploadedImage, this`latex, this`isProcessing, this`logs, this`history
      ensures Valid()
      ensures run == Run(file, imageUrl, old(CurrentSettings()))
      ensures logs == old(logs) + (Stamped(stamps[..3], StartNotes(run)) +
                [Entry(stamps[3], AnalyzingNote), Entry(stamps[4], ThresholdNote(run.snapshot.confidence)),
                 Entry(stamps[5], CompleteNote)])
      ensures Notes(logs) == Notes(old(logs)) + RunNotes(run)
      ensures uploadedImage == Some(imageUrl) && latex == result && !isProcessing
      ensures history == InsertFront(HistoryItem(itemId, result, now, Some(imageUrl)), old(history))
    {
      ghost var l0 := logs;
      run := HandleImageUpload(CurrentSettings(), file, imageUrl, stamps[..3]);
      ghost var started := Stamped(stamps[..3], StartNotes(run));
      AnalyzeTimer(stamps[3]);
      ThresholdTimer(run, stamps[4]);
      CompletionTimer(run, result, stamps[5], itemId, now);
      ghost var timed := [Entry(stamps[3], AnalyzingNote),
        Entry(stamps[4], ThresholdNote(run.snapshot.confidence)), Entry(stamps[5], CompleteNote)];
      assert logs == l0 + (started + timed);
      RunLogNotes(l0, started, timed, run);
      NotesOfStamped(stamps[..3], StartNotes(run));
    }

    /** A threshold change made while the file is being read does not reach
        the conversion: the handler had already captured the settings, so the
        threshold line reports the old value. */
    method ThresholdChangeDuringRead(file: FileInfo, imageUrl: string, stamps: seq<Stamp>, c: int)
      returns (run: Run)
      requires Valid() && ValidConfidence(c)
      requires |stamps| == 4
      modifies this`uploadedImage, this`isProcessing, this`logs, this`confidence
      ensures Valid() && confidence == c
      ensures run.snapshot.confidence == old(confidence)
      ensures |logs| > 0 && ReportedThreshold(logs[|logs| - 1].message) == Some(old(confidence))
    {
      var snapshot := CurrentSettings();
      SetConfidence(c);
      run := HandleImageUpload(snapshot, file, imageUrl, stamps[..3]);
      ThresholdTimer(run, stamps[3]);
      ThresholdRoundTrip(run.snapshot.confidence);
    }

    /** Clearing while a conversion is pending does not cancel it: the result
        still arrives, and the cleared image comes back as the thumbnail of
        the new history item. */
    method ClearDuringRun(file: FileInfo, imageUrl: string, result: string,
                          stamps: seq<Stamp>, itemId: string, now: int)
      requires Valid()
      requires |stamps| == 7
      requires result in Samples
      requires itemId !in Ids(history)
      modifies this`uploadedImage, this`latex, this`isProcessing, this`logs, this`history
      ensures Valid()
      ensures uploadedImage == None && latex == result && !isProcessing
      ensures |history| > 0 && history[0] == HistoryItem(itemId, result, now, Some(imageUrl))
      ensures |logs| > 0 && logs[|logs| - 1] == Entry(stamps[6], CompleteNote)
    {
      var run := HandleImageUpload(CurrentSettings(), file, imageUrl, stamps[..3]);
      HandleClear(stamps[3]);
      AnalyzeTimer(stamps[4]);
      ThresholdTimer(run, stamps[5]);
      CompletionTimer(run, result, stamps[6], itemId, now);
    }
  }
}
