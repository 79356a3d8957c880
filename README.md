# Digital Image Toolkit — session state and integer image rules, in Dafny

This project models the part of the Digital Image Toolkit (`main.py`, class
`ImageToolkitApp`) that has state and invariants. It also models the integer
rules behind some of the toolkit's transforms.

- **Edit history** (`history.dfy`, `session.dfy`). The toolkit keeps a linear
  undo/redo list of snapshots with a cursor `history_index`. Pushing a result
  discards every snapshot after the cursor and appends the new one. Undo and
  redo move the cursor within bounds. Loading an image clears the list.
  "Reset" pushes a copy of the original as an ordinary, undoable snapshot.
  Module `EditHistory` states all of this on values: a `History` datatype and
  the functions `Push`, `Undo`, `Redo` and `Current`, with lemmas about them.
  Module `ToolkitApp` holds the class `ImageToolkitApp`, which has the source's
  own fields (`originalImage`, `currentImage`, `originalPath`, `processing`,
  `editMode`, `history`, `historyIndex`). Each of its methods is proved against
  those functions. Its invariant `Valid()` says four things: the cursor lies
  in `[-1, |history|-1]`; the cursor is -1 exactly when the history is empty;
  there are snapshots or an operation in flight only once an original is
  loaded; and the current image is the snapshot under the cursor. Here
  `processing` stands only for an admitted transform. The source also sets
  it while the first image is decoded (main.py:368), with no original yet;
  loading is outside the model, so that case does not arise. The first
  three make up `HistoryValid()`, which is what holds in the middle of
  `reset_enhanced_image`, after the current image is set and before the push.
- **Source selector** (`SelectSource`, `GetSourceImage`). In Original mode a
  transform starts from the loaded original. Otherwise it starts from the
  current image, falling back to the original.
- **Operation runner.** A transform runs on a worker thread, and its result is
  committed on the interactive thread. The model runs this sequentially, as
  atomic steps:
  - `BeginOperation`: the guard and source check of `apply_operation`, and the
    worker setting `processing`.
  - `FinishProcessing`: commits the result and releases the guard.
  - `ProcessingError`: handles an exception and releases the guard.
  - `ApplyOperation`: composes the three steps. A busy session or a missing
    source changes nothing. A result is pushed exactly once. An exception
    pushes nothing. The message it reports is the one the error callback was
    evidently meant to show; as written, that callback never shows it (see
    "## Findings").
  - `ApplyTransform`: one button of the processing panel.
- **Transforms** (`transforms.dfy`). The operation closures of
  `apply_negative`, `apply_smoothing`, `apply_resize`, `apply_thresholding`
  and `apply_edge_detection` are one function, `Apply`. Pillow is the
  parameter `lib: Library`, a function from a filter tag and an image to an
  image or an exception (`Fault`). The `ValueError` handlers of the source are
  modelled branch for branch.
- **Integer rules** (`images.dfy`, `params.dfy`):
  - the negative `255 - v` and the threshold `v >= t ? 255 : 0`, over an image
    given as rows of integer samples. `Image` itself is unconstrained, and
    nothing in the session or in `Library` requires 8-bit samples. The
    predicate `WellFormed` (every sample in 0..255) is what a decoded image
    satisfies, and the lemmas that need it, such as `NegateWellFormed`,
    assume it;
  - Python's `int()` on entry text (whitespace, sign, digits with single
    underscores), with its rendering inverse `IntToString`;
  - `lower()` and `split('x')`, and the `"WxH"` resize syntax;
  - the smoothing-kernel coercion `max(3, k)` bumped to odd, with radius
    `k // 3`.

`scenarios.dfy` is client code. It drives a window through typical editing
sessions, using only the method contracts:
- load, negative, threshold at 128, undo, redo;
- a second request while one is in flight is rejected;
- an unreadable threshold pushes the unchanged source;
- nothing loaded;
- Enhanced versus Original mode, then reloading;
- reset is undoable.

Behaviours of the code worth noting, which the model follows:
- A bad resize or threshold entry does not leave the history untouched. The
  operation catches the `ValueError` and returns its input, and
  `finish_processing` pushes that input as a new snapshot (main.py:598-600,
  611-613, 539-541). `BadParameterKeepsImage` and the scenario `BadThreshold`
  show this.
- The threshold has no range check. Any integer is accepted: one at or below
  0 gives an all-white image, and one above 255 an all-black image
  (main.py:606-609).
- The edge method `"canny"`, like any name other than `"sobel"` and
  `"prewitt"`, selects `EDGE_ENHANCE_MORE` (main.py:631-637).
- `processing` is set on the worker thread, not before the thread starts. It is
  cleared in a `finally` before the commit runs. Here admission and commit are
  each one atomic step.

`ApplyToHistory` requires an image to be loaded. Both of its callers
(`reset_enhanced_image` and `finish_processing`) only run once one is loaded.
`FinishProcessing` requires `processing` because each step is modelled as
atomic: the commit is the step that ends an admitted operation, and it both
pushes the result and releases the guard. In the source, the worker's
`finally` clears the flag (main.py:537) before `finish_processing` runs on
the interactive thread.

## Model

| member | source | states |
|---|---|---|
| Images.Negate | main.py:551-555 | the negative keeps the image's shape, and each output sample plus its input sample is 255 |
| Images.NegateWellFormed | main.py:553-554 | the negative of an 8-bit image is again an 8-bit image, so the uint8 subtraction never wraps |
| Images.NegateInvolution | main.py:553-554 | applying the negative twice gives back the input |
| Images.Binarize | main.py:606-609 | thresholding keeps the shape, and a sample becomes 255 exactly when it is at least the threshold |
| Images.BinarizeBinary | main.py:606-610 | a thresholded image holds only 0 and 255, so it is an 8-bit image |
| Images.BinarizeOutOfRange | main.py:606-609 | with no range check, a threshold at or below 0 makes every sample white and one above 255 makes every sample black |
| Images.BinarizeIdempotent | main.py:609 | thresholding a thresholded image again at the same threshold changes nothing: for every threshold on an 8-bit image, and for a threshold in 1..255 on any image |
| Params.TrimStart | main.py:606 | the result is a suffix of the text that does not start with whitespace, and everything dropped before it is whitespace |
| Params.TrimEnd | main.py:606 | the result is a prefix of the text that does not end with whitespace, and everything dropped after it is whitespace |
| Params.Strip | main.py:606 | the stripped text is a slice of the text with only whitespace around it, and it neither starts nor ends with whitespace |
| Params.StripIdempotent | main.py:606 | stripping an already stripped text changes nothing |
| Params.ParseInt | main.py:606 | `int()` accepts a text exactly when, once stripped, it is a digit group, optionally after one '+' or '-'; an accepted text starts with a sign or a digit and ends with a digit, and a negative value needs a leading minus; ParseIntStripped, ParseIntDigits, ParseIntPositive and ParseIntNegative give its value for every accepted text |
| Params.ParseIntRejectsInner | main.py:611-613 | stripped text with a character other than a digit or '_' after its first position, such as "12a" or "1.5", raises ValueError (None) |
| Params.ParseIntInnerLetter | main.py:611-613 | the entry "1a1" raises ValueError (None) |
| Params.ParseIntSeparatorRejected | main.py:606 | the information separator 28 is not whitespace to `int()`, so text starting with it does not convert |
| Params.ParseIntDigits | main.py:606 | `int()` of a digit group (digits with single underscores between them) is its value |
| Params.ParseIntNegative | main.py:606 | `int()` of a minus sign followed by a digit group is the negated value |
| Params.ParseIntPositive | main.py:606 | `int()` of a plus sign followed by a digit group is its value |
| Params.ParseIntStripped | main.py:560 | whitespace around an entry does not change what `int()` gives, so " 128 " converts like "128" |
| Params.ParseIntRoundTrip | main.py:606 | `int(str(n)) == n` for every integer n |
| Params.ParseIntRejects | main.py:606 | stripped text that starts with neither a sign nor a digit raises ValueError (None) |
| Params.ParseIntDefault | main.py:246 | the default threshold entry "128" converts to 128 |
| Params.ParseIntLetters | main.py:611-613 | a non-numeric entry such as "abc" raises ValueError (None) |
| Params.Lower | main.py:596 | lowering keeps the length, turns each capital into its own small letter, leaves no capital letter, and keeps every character that is not a capital |
| Params.LowerIdempotent | main.py:596 | lowering a lowered text changes nothing |
| Params.Split | main.py:596 | `split('x')` yields at least one piece; SplitCount, SplitPiecesFree and SplitJoin pin down the pieces |
| Params.SplitCount | main.py:596 | `split('x')` yields one more piece than the text has separators |
| Params.SplitPiecesFree | main.py:596 | no piece of `split('x')` contains the separator |
| Params.SplitJoin | main.py:596 | joining the pieces with the separator rebuilds the text |
| Params.SplitJoined | main.py:596 | two texts without an 'x', joined by one, split back into exactly those two pieces |
| Params.LowerIntToString | main.py:596 | lowering leaves a rendered integer alone, and it contains no 'x' |
| Params.ParseSize | main.py:596 | a resize text that parses has, once lowered, exactly two pieces around one 'x', which convert to the width and the height |
| Params.ParseSizeIgnoresCase | main.py:596 | parsing a resize text gives the same as parsing its lowered text |
| Params.ParseSizeCapitalSeparator | main.py:596 | a capital 'X' separates like a small one: `a + "X" + b` parses exactly as `a + "x" + b`, so "800X600" means "800x600" |
| Params.ParseSizeJoined | main.py:596 | two separator-free lower-case texts that both convert, joined by 'x', parse to that width and height |
| Params.ParseSizeRoundTrip | main.py:596 | every size written "WxH" parses back to the same width and height |
| Params.ParseSizeOneSeparator | main.py:596-600 | unless the lowered text holds exactly one 'x', the resize text is rejected |
| Params.KernelSize | main.py:560-562 | the coerced kernel size is at least 3, odd, and at least the requested size |
| Params.KernelSizeLeast | main.py:560-562 | the coerced size is no larger than any odd size that is at least 3 and at least the request |
| Params.SmoothingRadius | main.py:563 | the Gaussian radius `kernel_size // 3` is at least 1 and is the floor of a third of the coerced size |
| Transforms.Apply | main.py:551-637 | the negative and threshold operations always return an image; only the operations that call Pillow can raise; a resize raises only exceptions other than ValueError |
| Transforms.EdgeFilter | main.py:631-637 | "sobel" selects FIND_EDGES, "prewitt" EDGE_ENHANCE, and every other name EDGE_ENHANCE_MORE, each exactly when its condition holds |
| Transforms.NegativeTwice | main.py:551-555 | the negative operation never raises and never calls Pillow, and running it twice restores the image |
| Transforms.BadParameterKeepsImage | main.py:593-614 | a resize or threshold entry that does not convert makes the operation return its input unchanged instead of raising |
| Transforms.ThresholdResult | main.py:603-614 | a threshold entry that converts yields the image binarized at that value: same shape, black and white, white exactly where the sample reaches the threshold |
| Transforms.ResizeResult | main.py:595-600 | a resize entry that parses asks Pillow for a LANCZOS resize to that size, and returns the input unchanged if that raises ValueError |
| Transforms.EdgeDetectionResult | main.py:629-638 | edge detection hands the image to the filter of its method ("canny" gives EDGE_ENHANCE_MORE), and Pillow's result or exception is the operation's |
| Transforms.NoValueErrorEscapes | main.py:593-614 | the negative, resize and threshold operations never let a ValueError reach the runner |
| Transforms.SmoothingResult | main.py:557-566 | an unreadable kernel entry uses BLUR; a readable one asks for GaussianBlur with radius at least 1, and falls back to BLUR if that raises ValueError |
| EditHistory.Empty | main.py:452-456 | an empty history has cursor -1 and satisfies the cursor invariant |
| EditHistory.Current | main.py:490-502 | there is a current snapshot exactly when the history is non-empty, and it is the entry under the cursor |
| EditHistory.Push | main.py:480-487 | a push keeps entries 0..index, drops the rest, appends the new snapshot, puts the cursor on it and keeps the invariant |
| EditHistory.Undo | main.py:490-495 | undo keeps the entries and the invariant, and moves the cursor back by one only when it is past the first entry |
| EditHistory.Redo | main.py:497-502 | redo keeps the entries and the invariant, and moves the cursor forward by one only when it is before the last entry |
| EditHistory.UndoNoOp | main.py:492 | undo changes nothing exactly when the cursor is at or before the first entry |
| EditHistory.RedoNoOp | main.py:499 | redo changes nothing exactly when the cursor is on the last entry or the history is empty |
| EditHistory.UndoThenRedo | main.py:490-502 | an undo that moves, followed by a redo, restores the cursor and the current snapshot |
| EditHistory.RedoThenUndo | main.py:490-502 | a redo that moves, followed by an undo, restores the history |
| EditHistory.PushPrunesRedo | main.py:480-502 | after a push there is nothing to redo, and an undo returns to the snapshot that was current before the push |
| EditHistory.Step | main.py:452-502 | each reset, push, undo or redo keeps the cursor invariant |
| EditHistory.ReplayValid | main.py:452-502 | every sequence of resets, pushes, undos and redos keeps the cursor invariant |
| EditHistory.ReplayBounded | main.py:480-487 | the history never holds more snapshots than it started with plus the pushes made |
| EditHistory.NavigationKeepsEntries | main.py:490-502 | any sequence of undos and redos leaves the stored snapshots unchanged |
| EditHistory.RedoPruningExample | main.py:480-502 | push A, B, C, then undo twice, then push D gives exactly [A, D] with the cursor on D and nothing to redo |
| ToolkitApp.SelectSource | main.py:505-511 | Original mode gives the original; Enhanced mode gives the current image if present, else the original; none exactly when no usable image exists |
| ToolkitApp.ImageToolkitApp.constructor | main.py:30-37 | nothing loaded, no current image, not processing, Enhanced mode, empty history with cursor -1 |
| ToolkitApp.ImageToolkitApp.SetEditMode | main.py:173-178 | the mode radio buttons change only the edit mode, never the history |
| ToolkitApp.ImageToolkitApp.ResetHistory | main.py:452-456 | the history becomes empty, the cursor -1 and the current image none |
| ToolkitApp.ImageToolkitApp.FinishLoad | main.py:376-390 | the loaded image and path replace the old ones, the history is empty with cursor -1, there is no current image, and the guard is released |
| ToolkitApp.ImageToolkitApp.ApplyToHistory | main.py:480-488 | the history becomes Push of the old history with the new image, and the current image is the new image |
| ToolkitApp.ImageToolkitApp.ResetEnhancedImage | main.py:459-463 | with an original loaded, the history grows by Push of the original and the current image is the original; with none loaded, nothing changes |
| ToolkitApp.ImageToolkitApp.UndoOperation | main.py:490-495 | the history becomes Undo of the old one, and the current image follows the cursor |
| ToolkitApp.ImageToolkitApp.RedoOperation | main.py:497-502 | the history becomes Redo of the old one, and the current image follows the cursor |
| ToolkitApp.ImageToolkitApp.GetSourceImage | main.py:505-511 | changes nothing; returns the selector's choice, which is missing exactly when no image is loaded and is the snapshot under the cursor in Enhanced mode with a non-empty history |
| ToolkitApp.ImageToolkitApp.BeginOperation | main.py:513-531 | a busy session gives Busy, and a missing source gives NoImage, both with no change; otherwise the guard is taken and the selected source is handed over |
| ToolkitApp.ErrorReportLost | main.py:534-535 | as written, the error callback reads the handler's name `e` after the handler has ended, so every exception ends in a NameError instead of the error dialog |
| ToolkitApp.ErrorReportDelivered | main.py:534-548 | with the message taken while the handler runs, the error dialog shows the exception's message |
| ToolkitApp.ImageToolkitApp.FinishProcessing | main.py:536-541 | the result is pushed once, becomes the current image, and the guard is released |
| ToolkitApp.ImageToolkitApp.ProcessingError | main.py:544-548 | the guard is released and the history and current image are untouched |
| ToolkitApp.ImageToolkitApp.ApplyOperation | main.py:513-548 | busy or no source: rejected with the history unchanged; a result: committed and pushed exactly once; an exception: nothing pushed, the guard released, and the outcome carries the message the corrected error callback shows |
| ToolkitApp.ImageToolkitApp.ApplyTransform | main.py:551-638 | a processing-panel button runs its transform through the runner with the same four outcomes, in terms of `Apply` on the selected source |

## Left out

- Tkinter presentation is not modelled: the layout, `display_image`, `show_loading`/`hide_loading`, `update_stats`, message boxes and file dialogs (main.py:44-348, 392-450). Apart from the two mode radio buttons (main.py:173-178), modelled as `SetEditMode`, none of it changes the session state.
- `load_image` and `load_image_thread` (main.py:351-374) are not modelled: the file dialog, their busy check, the worker setting and clearing `processing`, and Pillow decoding. Only the commit `finish_load` is modelled.
- `save_enhanced_image` (main.py:465-477) is not modelled. Encoding is a library call, and saving does not touch the session state.
- Threading is not modelled. `processing` is set on the worker thread and cleared in `finally` before the commit runs (main.py:368, 531, 536-537). Here admission and commit are each one atomic step. So the race in which a second operation is admitted before the first one has set the flag is not captured.
- Pillow filters (GaussianBlur, BLUR, FIND_EDGES, EDGE_ENHANCE, EDGE_ENHANCE_MORE) and LANCZOS resizing are the opaque parameter `lib`. Whatever Pillow itself rejects, such as sizes below 1, shows up only as a `ValueError` that `lib` may return.
- Thresholding takes its input as already grayscale. The RGB-to-L conversion before it and the L-to-RGB conversion after it (main.py:607, 610) are not modelled.
- Images are values. `.copy()` becomes value equality, so aliasing between the history and the current image is not captured.
- Sharpening (main.py:568-571), gamma correction (main.py:616-627, float32 numerics) and the histogram window (main.py:573-591, plotting only) are not modelled.
- Params.ParseInt accepts ASCII digits and the six ASCII whitespace characters (space, tab, line feed, vertical tab, form feed, carriage return) only. Python's `int()` also accepts Unicode decimal digits and Unicode whitespace, and it rejects texts of more than 4300 digits. Neither is modelled.
- Params.Lower lowers ASCII letters only, not the Unicode range of `str.lower()`. This does not matter for text that converts.
- The edit mode is a `tk.StringVar`. Its radio buttons only ever store 'enhanced' or 'original', so `EditMode` has exactly those two values.
- ApplyOperation and ProcessingError model the error path as evidently intended, with the message delivered to `processing_error`. As written, that callback fails with a NameError (see "## Findings"), so `processing_error` and its `hide_loading` never run and only the `finally` releases the guard. The session state that results is the same either way.

## Findings

| source | as written | input that shows it | evidently intended | confidence | as-written member | corrected member |
|---|---|---|---|---|---|---|
| main.py:534-535 | the worker's `except Exception as e` schedules `lambda: self.processing_error(str(e))`; Python deletes `e` when the handler ends, so the lambda raises NameError when Tk runs it | any operation that raises, such as an edge detection whose Pillow call fails | the error dialog shows the exception's message, e.g. with `lambda msg=str(e): self.processing_error(msg)` | not executed | ToolkitApp.ErrorReportLost | ToolkitApp.ErrorReportDelivered |
