/** The history hook of src/hooks/useEditorHistory.ts: the undo and redo
    keyboard shortcuts, and the batch calls that pause and resume the
    shared undo history. */
module EditorHistory {
  import opened Common

  datatype KeyEvent = KeyEvent(key: string, ctrl: bool, meta: bool, shift: bool)

  datatype Command = Undo | Redo

  /** `toLowerCase` on the characters that matter here: ASCII capitals
      become small letters, everything else stays. */
  function LowerAscii(s: string): (r: string)
    ensures |r| == |s|
    ensures forall i :: 0 <= i < |s| ==> r[i] == (if 'A' <= s[i] <= 'Z' then (s[i] as int + 32) as char else s[i])
  {
    seq(|s|, i requires 0 <= i < |s| => if 'A' <= s[i] <= 'Z' then (s[i] as int + 32) as char else s[i])
  }

  /** The window `keydown` handler: nothing without Ctrl or Meta; then "z"
      undoes (redoes with Shift) and "y" redoes, in either case. */
  function ShortcutCommand(e: KeyEvent): (r: Option<Command>)
    ensures !e.ctrl && !e.meta ==> r.None?
    ensures r == Some(Undo) <==> (e.ctrl || e.meta) && !e.shift && (e.key == "z" || e.key == "Z")
    ensures r == Some(Redo) <==> (e.ctrl || e.meta) &&
                                 ((e.shift && (e.key == "z" || e.key == "Z")) || e.key == "y" || e.key == "Y")
  {
    LowerSingle(e.key, 'z');
    LowerSingle(e.key, 'y');
    if !e.ctrl && !e.meta then None
    else if LowerAscii(e.key) == "z" then (if e.shift then Some(Redo) else Some(Undo))
    else if LowerAscii(e.key) == "y" then Some(Redo)
    else None
  }

  /** A key lowers to a single small letter exactly when it is that letter
      or its capital. */
  lemma LowerSingle(key: string, c: char)
    requires 'a' <= c <= 'z'
    ensures LowerAscii(key) == [c] <==> key == [c] || key == [(c as int - 32) as char]
  {
    if LowerAscii(key) == [c] {
      assert |key| == 1;
    }
  }

  /** `startBatch` and `endBatch` forward to the room history as one
      pause or one resume each. */
  datatype BatchCall = StartBatch | EndBatch

  /** The room history's paused flag after a call. Pausing an already
      paused history and resuming a running one change nothing; there is
      no nesting depth. */
  function ApplyBatch(paused: bool, call: BatchCall): (r: bool)
    ensures call == StartBatch ==> r
    ensures call == EndBatch ==> !r
  {
    match call
    case StartBatch => true
    case EndBatch => false
  }

  /** The flag after a sequence of calls. */
  function ApplyBatches(paused: bool, calls: seq<BatchCall>): bool
    decreases |calls|
  {
    if |calls| == 0 then paused else ApplyBatches(ApplyBatch(paused, calls[0]), calls[1..])
  }

  /** Only the last call counts: the flag depends on nothing else. */
  lemma {:induction false} LastCallDecides(paused: bool, calls: seq<BatchCall>)
    requires |calls| >= 1
    ensures ApplyBatches(paused, calls) == (calls[|calls| - 1] == StartBatch)
    decreases |calls|
  {
    if |calls| > 1 {
      LastCallDecides(ApplyBatch(paused, calls[0]), calls[1..]);
    }
  }

  /** Nested batches do not nest: two starts and one end leave the history
      running, so the outer batch is already closed. */
  lemma NestedBatchEndsEarly(paused: bool)
    ensures !ApplyBatches(paused, [StartBatch, StartBatch, EndBatch])
  {
    LastCallDecides(paused, [StartBatch, StartBatch, EndBatch]);
  }
}
