/**
 * The edit history as a value: the list of snapshots and the cursor that
 * marks the current one. The session class keeps the same two fields and
 * its methods are proved against the functions here.
 */
module EditHistory {
  import opened Wrappers

  /** The snapshots and the cursor; `index == -1` means "no edits yet". */
  datatype History<T> = History(entries: seq<T>, index: int)

  /** The cursor lies in `[-1, |entries| - 1]`, and it is -1 exactly when there are no entries. */
  predicate Valid<T>(h: History<T>) {
    && -1 <= h.index < |h.entries|
    && (h.index == -1 <==> h.entries == [])
  }

  /** The history of a freshly loaded image. */
  function Empty<T>(): (h: History<T>)
    ensures Valid(h) && |h.entries| == 0 && h.index == -1
  {
    History([], -1)
  }

  /** The snapshot under the cursor, if any. */
  function Current<T>(h: History<T>): (r: Option<T>)
    requires Valid(h)
    ensures r.Some? <==> h.entries != []
    ensures r.Some? ==> r.value == h.entries[h.index]
  {
    if h.index >= 0 then Some(h.entries[h.index]) else None
  }

  /**
   * Records a new snapshot: everything after the cursor is discarded, the
   * snapshot is appended and the cursor moves onto it.
   */
  function Push<T>(h: History<T>, x: T): (r: History<T>)
    requires Valid(h)
    ensures Valid(r)
    ensures |r.entries| == h.index + 2
    ensures r.entries[..h.index + 1] == h.entries[..h.index + 1]
    ensures r.index == |r.entries| - 1 && r.entries[r.index] == x
  {
    var kept := if h.index < |h.entries| - 1 then h.entries[..h.index + 1] else h.entries;
    History(kept + [x], |kept + [x]| - 1)
  }

  /** Moves the cursor one snapshot back, unless it is on the first snapshot or there are none. */
  function Undo<T>(h: History<T>): (r: History<T>)
    requires Valid(h)
    ensures Valid(r) && r.entries == h.entries
    ensures r.index == if h.index > 0 then h.index - 1 else h.index
  {
    if h.index > 0 then History(h.entries, h.index - 1) else h
  }

  /** Moves the cursor one snapshot forward, unless it is on the last snapshot. */
  function Redo<T>(h: History<T>): (r: History<T>)
    requires Valid(h)
    ensures Valid(r) && r.entries == h.entries
    ensures r.index == if h.index < |h.entries| - 1 then h.index + 1 else h.index
  {
    if h.index < |h.entries| - 1 then History(h.entries, h.index + 1) else h
  }

  /** Undo does nothing exactly when the cursor is at or before the first snapshot. */
  lemma UndoNoOp<T>(h: History<T>)
    requires Valid(h)
    ensures Undo(h) == h <==> h.index <= 0
  {
  }

  /** Redo does nothing exactly when the cursor is on the last snapshot (or there is none). */
  lemma RedoNoOp<T>(h: History<T>)
    requires Valid(h)
    ensures Redo(h) == h <==> h.index == |h.entries| - 1
  {
  }

  /** An undo that moves is reversed by a redo, which restores the cursor and the current snapshot. */
  lemma UndoThenRedo<T>(h: History<T>)
    requires Valid(h) && h.index > 0
    ensures Redo(Undo(h)) == h
    ensures Current(Redo(Undo(h))) == Current(h)
  {
  }

  /** A redo that moves is reversed by an undo. */
  lemma RedoThenUndo<T>(h: History<T>)
    requires Valid(h) && h.index < |h.entries| - 1
    ensures Undo(Redo(h)) == h
  {
  }

  /** After a push there is nothing to redo, and an undo returns to the snapshot that was current before it. */
  lemma PushPrunesRedo<T>(h: History<T>, x: T)
    requires Valid(h)
    ensures Redo(Push(h, x)) == Push(h, x)
    ensures h.entries != [] ==> Current(Undo(Push(h, x))) == Current(h)
  {
  }

  /** The commands that act on the history. */
  datatype Command<T> = PushCmd(snapshot: T) | UndoCmd | RedoCmd | ResetCmd

  function Step<T>(h: History<T>, c: Command<T>): (r: History<T>)
    requires Valid(h)
    ensures Valid(r)
  {
    match c
    case PushCmd(x) => Push(h, x)
    case UndoCmd => Undo(h)
    case RedoCmd => Redo(h)
    case ResetCmd => Empty()
  }

  /** The history after a sequence of commands, first command first. */
  function Replay<T>(h: History<T>, cs: seq<Command<T>>): History<T>
    requires Valid(h)
    decreases |cs|
  {
    if cs == [] then h else Replay(Step(h, cs[0]), cs[1..])
  }

  /** The number of pushes in a command sequence. */
  function Pushes<T>(cs: seq<Command<T>>): nat
    decreases |cs|
  {
    if cs == [] then 0 else (if cs[0].PushCmd? then 1 else 0) + Pushes(cs[1..])
  }

  /** Every interleaving of resets, pushes, undos and redos keeps the cursor invariant. */
  lemma {:induction false} ReplayValid<T>(h: History<T>, cs: seq<Command<T>>)
    requires Valid(h)
    ensures Valid(Replay(h, cs))
    decreases |cs|
  {
    if cs != [] {
      ReplayValid(Step(h, cs[0]), cs[1..]);
    }
  }

  /** The history never holds more snapshots than it started with plus the pushes made. */
  lemma {:induction false} ReplayBounded<T>(h: History<T>, cs: seq<Command<T>>)
    requires Valid(h)
    ensures |Replay(h, cs).entries| <= |h.entries| + Pushes(cs)
    decreases |cs|
  {
    if cs != [] {
      ReplayBounded(Step(h, cs[0]), cs[1..]);
    }
  }

  /** Undo and redo alone never change the stored snapshots, however many are made. */
  lemma {:induction false} NavigationKeepsEntries<T>(h: History<T>, cs: seq<Command<T>>)
    requires Valid(h)
    requires forall k :: 0 <= k < |cs| ==> cs[k].UndoCmd? || cs[k].RedoCmd?
    ensures Replay(h, cs).entries == h.entries
    decreases |cs|
  {
    if cs != [] {
      NavigationKeepsEntries(Step(h, cs[0]), cs[1..]);
    }
  }

  /** Three pushes, two undos, one push: the history is the first and the last snapshot, with nothing to redo. */
  lemma RedoPruningExample<T>(a: T, b: T, c: T, d: T)
    ensures var h := Push(Undo(Undo(Push(Push(Push(Empty(), a), b), c))), d);
      h.entries == [a, d] && h.index == 1 && Redo(h) == h
  {
  }
}
