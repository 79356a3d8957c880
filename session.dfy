/**
 * The session state of the toolkit window: the loaded original, the edit
 * history with its cursor, the current image, the edit mode and the
 * processing guard, together with the methods of the window that change
 * them. The worker thread of an operation is modelled sequentially: admitting
 * the operation and committing its result are each one atomic step.
 */
module ToolkitApp {
  import opened Wrappers
  import opened Images
  import opened Transforms
  import EditHistory

  /** Whether a transform continues from the current result or starts again from the loaded original. */
  datatype EditMode = Enhanced | Original

  /**
   * The input of the next transform: the original in Original mode;
   * otherwise the current image, falling back to the original.
   */
  function SelectSource(mode: EditMode, original: Option<Image>, current: Option<Image>): (r: Option<Image>)
    ensures mode == Original ==> r == original
    ensures mode == Enhanced && current.Some? ==> r == current
    ensures r.Some? ==> r == original || r == current
    ensures r == None <==> original == None && (mode == Original || current == None)
  {
    match mode
    case Original => original
    case Enhanced => if current.Some? then current else original
  }

  /** What the guard and the source check decide about a requested operation. */
  datatype Admission = Busy | NoImage | Admitted(source: Image)

  /**
   * The name `e` of the worker's `except Exception as e` handler: bound to the
   * exception while the handler runs and deleted when it ends, as Python 3
   * does with exception names.
   */
  function HandlerName(fault: Fault, handlerRunning: bool): (e: Option<Fault>)
    ensures e.Some? <==> handlerRunning
    ensures e.Some? ==> e.value == fault
  {
    if handlerRunning then Some(fault) else None
  }

  /** What the scheduled error callback delivers: the error dialog with a message, or a NameError. */
  datatype ErrorReport = Dialog(message: string) | UnboundName

  /** Evaluates `str(e)` for `processing_error`, with `e` bound as it is at that moment. */
  function ReportOf(e: Option<Fault>): (r: ErrorReport)
    ensures r.Dialog? <==> e.Some?
    ensures e.Some? ==> r.message == e.value.message
  {
    match e
    case Some(fault) => Dialog(fault.message)
    case None => UnboundName
  }

  /**
   * The callback as written: `lambda: self.processing_error(str(e))` reads `e`
   * only when Tk runs it, after the handler has ended.
   */
  function ScheduledReportAsWritten(fault: Fault): ErrorReport {
    ReportOf(HandlerName(fault, false))
  }

  /** The evidently intended callback: the message is taken while the handler runs. */
  function ScheduledReport(fault: Fault): ErrorReport {
    ReportOf(HandlerName(fault, true))
  }

  /** As written, every exception ends in a NameError instead of the error dialog. */
  lemma ErrorReportLost(fault: Fault)
    ensures ScheduledReportAsWritten(fault) == UnboundName
  {
  }

  /** With the message taken inside the handler, the dialog shows the exception's message. */
  lemma ErrorReportDelivered(fault: Fault)
    ensures ScheduledReport(fault) == Dialog(fault.message)
  {
  }

  /** How a requested operation ends. */
  datatype RunOutcome = Rejected(reason: Admission) | Committed(result: Image) | Failed(message: string)

  class ImageToolkitApp {
    var originalImage: Option<Image>
    var currentImage: Option<Image>
    var originalPath: Option<string>
    var processing: bool
    var editMode: EditMode
    var history: seq<Image>
    var historyIndex: int

    /** The history and its cursor as one value. */
    function Log(): EditHistory.History<Image>
      reads this
    {
      EditHistory.History(history, historyIndex)
    }

    /**
     * The cursor invariant of the history, and there are snapshots or an
     * operation in flight only once an image is loaded.
     */
    ghost predicate HistoryValid()
      reads this
    {
      && EditHistory.Valid(Log())
      && (history != [] || processing ==> originalImage.Some?)
    }

    /** The session invariant: besides HistoryValid, the current image is the snapshot under the cursor. */
    ghost predicate Valid()
      reads this
    {
      HistoryValid() && currentImage == EditHistory.Current(Log())
    }

    /** A window with nothing loaded, in Enhanced mode. */
    constructor ()
      ensures Valid()
      ensures originalImage == None && currentImage == None && originalPath == None
      ensures !processing && editMode == Enhanced
      ensures Log() == EditHistory.Empty()
    {
      originalImage := None;
      currentImage := None;
      originalPath := None;
      processing := false;
      editMode := Enhanced;
      history := [];
      historyIndex := -1;
    }

    /** The edit-mode radio buttons; the history is untouched. */
    method SetEditMode(mode: EditMode)
      requires Valid()
      modifies this`editMode
      ensures Valid() && editMode == mode
    {
      editMode := mode;
    }

    /** Clears the history: no snapshots, cursor at -1, no current image. */
    method ResetHistory()
      requires Valid()
      modifies this`history, this`historyIndex, this`currentImage
      ensures Valid()
      ensures Log() == EditHistory.Empty() && currentImage == None
    {
      history := [];
      historyIndex := -1;
      currentImage := None;
    }

    /** Completes a load: the new original replaces the old one, the history starts afresh and the guard is released. */
    method FinishLoad(image: Image, path: string)
      requires Valid()
      modifies this
      ensures Valid()
      ensures originalImage == Some(image) && originalPath == Some(path)
      ensures Log() == EditHistory.Empty() && currentImage == None
      ensures !processing && editMode == old(editMode)
    {
      originalImage := Some(image);
      originalPath := Some(path);
      ResetHistory();
      processing := false;
    }

    /** Pushes a snapshot: later snapshots are dropped, the new one is appended and becomes current. */
    method ApplyToHistory(newImage: Image)
      requires HistoryValid() && originalImage.Some?
      modifies this`history, this`historyIndex, this`currentImage
      ensures Valid()
      ensures Log() == EditHistory.Push(old(Log()), newImage)
      ensures currentImage == Some(newImage)
    {
      if historyIndex < |history| - 1 {
        history := history[..historyIndex + 1];
      }
      history := history + [newImage];
      historyIndex := |history| - 1;
      currentImage := Some(newImage);
    }

    /** With an image loaded, pushes a copy of the original as an ordinary, undoable snapshot. */
    method ResetEnhancedImage()
      requires Valid()
      modifies this`history, this`historyIndex, this`currentImage
      ensures Valid()
      ensures old(originalImage) == None ==> Log() == old(Log()) && currentImage == old(currentImage)
      ensures old(originalImage).Some? ==>
        && Log() == EditHistory.Push(old(Log()), originalImage.value)
        && currentImage == originalImage
    {
      if originalImage.Some? {
        currentImage := originalImage;
        ApplyToHistory(originalImage.value);
      }
    }

    /** Steps the cursor back when it is past the first snapshot; the snapshots are never changed. */
    method UndoOperation()
      requires Valid()
      modifies this`historyIndex, this`currentImage
      ensures Valid()
      ensures Log() == EditHistory.Undo(old(Log()))
      ensures old(historyIndex) <= 0 ==> currentImage == old(currentImage)
    {
      if historyIndex > 0 {
        historyIndex := historyIndex - 1;
        currentImage := Some(history[historyIndex]);
      }
    }

    /** Steps the cursor forward when it is before the last snapshot; the snapshots are never changed. */
    method RedoOperation()
      requires Valid()
      modifies this`historyIndex, this`currentImage
      ensures Valid()
      ensures Log() == EditHistory.Redo(old(Log()))
      ensures old(historyIndex) == |history| - 1 ==> currentImage == old(currentImage)
    {
      if historyIndex < |history| - 1 {
        historyIndex := historyIndex + 1;
        currentImage := Some(history[historyIndex]);
      }
    }

    /** The source the selector picks in the current state. */
    function SourceOf(): Option<Image>
      reads this
    {
      SelectSource(editMode, originalImage, currentImage)
    }

    /** The input of the next transform; changes nothing, and is missing exactly when no image is loaded. */
    method GetSourceImage() returns (source: Option<Image>)
      requires Valid()
      ensures source == SelectSource(editMode, originalImage, currentImage)
      ensures source == None <==> originalImage == None
      ensures editMode == Enhanced && history != [] ==> source == Some(history[historyIndex])
    {
      source := SourceOf();
    }

    /**
     * Admits an operation: a request while another is in flight, or with no
     * source image, is turned away without any change; otherwise the guard is
     * taken and the source handed to the worker.
     */
    method BeginOperation() returns (admission: Admission)
      requires Valid()
      modifies this`processing
      ensures Valid()
      ensures old(processing) ==> admission == Busy && processing
      ensures !old(processing) && SourceOf() == None ==> admission == NoImage && !processing
      ensures !old(processing) && SourceOf().Some? ==> admission == Admitted(SourceOf().value) && processing
    {
      if processing {
        return Busy;
      }
      var source := GetSourceImage();
      if source == None {
        return NoImage;
      }
      processing := true;
      admission := Admitted(source.value);
    }

    /** Commits the result of an admitted operation: it is pushed once and the guard is released. */
    method FinishProcessing(result: Image)
      requires Valid() && processing
      modifies this`history, this`historyIndex, this`currentImage, this`processing
      ensures Valid()
      ensures Log() == EditHistory.Push(old(Log()), result)
      ensures currentImage == Some(result) && !processing
    {
      ApplyToHistory(result);
      processing := false;
    }

    /** Reports an operation that raised: the guard is released and the history is left as it was. */
    method ProcessingError(message: string)
      requires Valid()
      modifies this`processing
      ensures Valid() && !processing
    {
      processing := false;
    }

    /**
     * Runs an operation from admission to commit. A busy session or a missing
     * source leaves everything as it was; a result is pushed exactly once; an
     * exception pushes nothing.
     */
    method ApplyOperation(operation: Image -> Result<Image, Fault>) returns (outcome: RunOutcome)
      requires Valid()
      modifies this`history, this`historyIndex, this`currentImage, this`processing
      ensures Valid()
      ensures old(processing) ==> outcome == Rejected(Busy) && Log() == old(Log()) && processing
      ensures !old(processing) && old(SourceOf()) == None ==>
        outcome == Rejected(NoImage) && Log() == old(Log()) && !processing
      ensures !old(processing) && old(SourceOf()).Some? && operation(old(SourceOf()).value).Ok? ==>
        && outcome == Committed(operation(old(SourceOf()).value).value)
        && Log() == EditHistory.Push(old(Log()), outcome.result)
        && !processing
      ensures !old(processing) && old(SourceOf()).Some? && operation(old(SourceOf()).value).Err? ==>
        && outcome == Failed(operation(old(SourceOf()).value).error.message)
        && Log() == old(Log())
        && !processing
    {
      var admission := BeginOperation();
      if !admission.Admitted? {
        return Rejected(admission);
      }
      match operation(admission.source)
      case Ok(result) =>
        FinishProcessing(result);
        outcome := Committed(result);
      case Err(fault) =>
        var report := ScheduledReport(fault);
        ErrorReportDelivered(fault);
        ProcessingError(report.message);
        outcome := Failed(report.message);
    }

    /** One button of the processing panel: runs the chosen transform through the runner. */
    method ApplyTransform(t: Transform, lib: Library) returns (outcome: RunOutcome)
      requires Valid()
      modifies this`history, this`historyIndex, this`currentImage, this`processing
      ensures Valid()
      ensures old(processing) ==> outcome == Rejected(Busy) && Log() == old(Log()) && processing
      ensures !old(processing) ==> !processing
      ensures !old(processing) && old(SourceOf()) == None ==>
        outcome == Rejected(NoImage) && Log() == old(Log())
      ensures !old(processing) && old(SourceOf()).Some? && Apply(t, lib, old(SourceOf()).value).Ok? ==>
        && outcome == Committed(Apply(t, lib, old(SourceOf()).value).value)
        && Log() == EditHistory.Push(old(Log()), outcome.result)
      ensures !old(processing) && old(SourceOf()).Some? && Apply(t, lib, old(SourceOf()).value).Err? ==>
        outcome == Failed(Apply(t, lib, old(SourceOf()).value).error.message) && Log() == old(Log())
    {
      outcome := ApplyOperation((img: Image) => Apply(t, lib, img));
    }
  }
}
