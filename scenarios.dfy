/**
 * Client code that drives a window through typical editing sessions,
 * using only the contracts of the session methods.
 */
module Scenarios {
  import opened Wrappers
  import opened Images
  import opened Params
  import opened Transforms
  import opened ToolkitApp
  import EditHistory

  /** Load, negative, threshold at 128 (the default entry `"128"` is one such text), undo, redo. */
  method EndToEnd(gray: Image, lib: Library, thresholdText: string)
    requires ParseInt(thresholdText) == Some(128)
  {
    var negative := Negate(gray);
    var binary := Binarize(negative, 128);
    assert Apply(Negative, lib, gray) == Ok(negative);
    assert Apply(Threshold(thresholdText), lib, negative) == Ok(binary) by {
      ThresholdResult(thresholdText, lib, negative);
    }
    LoadApplyTwiceAndStep(gray, lib, Negative, negative, Threshold(thresholdText), binary);
  }

  /** Load, two transforms that both succeed, then undo and redo. */
  method LoadApplyTwiceAndStep(loaded: Image, lib: Library, t1: Transform, r1: Image, t2: Transform, r2: Image)
    requires Apply(t1, lib, loaded) == Ok(r1) && Apply(t2, lib, r1) == Ok(r2)
  {
    var app := new ImageToolkitApp();
    app.FinishLoad(loaded, "gray.png");
    RunCommitted(app, t1, lib, loaded, r1);
    assert app.Log() == EditHistory.History([r1], 0);
    RunCommitted(app, t2, lib, r1, r2);
    assert app.Log() == EditHistory.History([r1, r2], 1);
    StepBackAndForth(app, r1, r2);
  }

  /** A transform that succeeds on the selected source is committed, in Enhanced mode. */
  method RunCommitted(app: ImageToolkitApp, t: Transform, lib: Library, source: Image, result: Image)
    requires app.Valid() && !app.processing && app.editMode == Enhanced
    requires app.SourceOf() == Some(source) && Apply(t, lib, source) == Ok(result)
    modifies app
    ensures app.Valid() && !app.processing && app.editMode == Enhanced
    ensures app.originalImage == old(app.originalImage)
    ensures app.Log() == EditHistory.Push(old(app.Log()), result)
  {
    var outcome := app.ApplyTransform(t, lib);
  }

  /** With two snapshots and the cursor on the second, undo shows the first and redo the second again. */
  method StepBackAndForth(app: ImageToolkitApp, first: Image, second: Image)
    requires app.Valid() && app.Log() == EditHistory.History([first, second], 1)
    modifies app
  {
    app.UndoOperation();
    assert app.currentImage == Some(first);
    app.RedoOperation();
    assert app.currentImage == Some(second);
  }

  /** The default threshold entry satisfies the end-to-end session. */
  method EndToEndDefault(gray: Image, lib: Library)
  {
    ParseIntDefault();
    EndToEnd(gray, lib, "128");
  }

  /** A second request while one is in flight is turned away, and the first still commits once. */
  method BusyRejection(original: Image, result: Image, lib: Library)
  {
    var app := new ImageToolkitApp();
    app.FinishLoad(original, "in.png");
    var admission := app.BeginOperation();
    assert admission == Admitted(original);

    var second := app.ApplyTransform(Negative, lib);
    assert second == Rejected(Busy) && app.history == [];

    app.FinishProcessing(result);
    assert app.history == [result] && !app.processing;
  }

  /** An unreadable threshold returns the source unchanged, and that copy is pushed. */
  method BadThreshold(original: Image, lib: Library, thresholdText: string)
    requires ParseInt(thresholdText) == None
  {
    var app := new ImageToolkitApp();
    app.FinishLoad(original, "in.png");
    assert Apply(Threshold(thresholdText), lib, original) == Ok(original);
    var outcome := app.ApplyTransform(Threshold(thresholdText), lib);
    assert outcome == Committed(original);
    assert app.history == [original] && app.historyIndex == 0;
  }

  /** The text "abc" is such an unreadable threshold. */
  method BadThresholdLetters(original: Image, lib: Library)
  {
    ParseIntLetters();
    BadThreshold(original, lib, "abc");
  }

  /** Nothing loaded: every operation is turned away and the history stays empty. */
  method NothingLoaded(lib: Library)
  {
    var app := new ImageToolkitApp();
    var outcome := app.ApplyTransform(Negative, lib);
    assert outcome == Rejected(NoImage);
    app.ResetEnhancedImage();
    assert app.history == [] && app.currentImage == None;
  }

  /** With snapshots a, b and original o, Enhanced mode starts from b and Original mode from o. */
  method ModeSelection(o: Image, a: Image, b: Image, c: Image)
  {
    var app := new ImageToolkitApp();
    app.FinishLoad(o, "o.png");
    var r1 := app.ApplyOperation((img: Image) => Ok(a));
    var r2 := app.ApplyOperation((img: Image) => Ok(b));
    assert app.history == [a, b] && app.historyIndex == 1;

    var enhanced := app.GetSourceImage();
    assert enhanced == Some(b);
    app.SetEditMode(Original);
    var pristine := app.GetSourceImage();
    assert pristine == Some(o);
    assert app.history == [a, b] && app.historyIndex == 1;

    app.FinishLoad(c, "c.png");
    assert app.history == [] && app.historyIndex == -1 && app.originalImage == Some(c);
  }

  /** Reset pushes the original as an undoable snapshot. */
  method ResetIsUndoable(o: Image, a: Image)
  {
    var app := new ImageToolkitApp();
    app.FinishLoad(o, "o.png");
    var r := app.ApplyOperation((img: Image) => Ok(a));
    app.ResetEnhancedImage();
    assert app.history == [a, o] && app.currentImage == Some(o);
    app.UndoOperation();
    assert app.currentImage == Some(a);
  }
}
