/** The text box of src/components/TextWidget.tsx as a state machine. Its
    state is the edit flag and the two drag refs, plus whether its document
    listeners are attached; each event yields the new state and the calls it
    makes to its parent (select, delete, update) and to the history hook. */
module TextWidget {
  import opened Common
  import opened Model
  import EditorHistory

  /** A call the widget makes. */
  datatype Effect =
    | SelectMe                          // `onSelect()`
    | DeleteMe                          // `onDelete()`
    | Batch(call: EditorHistory.BatchCall)
    | UpdateMe(patch: WidgetPatch)      // `onUpdate(partial)`

  /** What the parent passes in. */
  datatype WidgetProps = WidgetProps(widget: Widget, isSelected: bool, tool: Tool, readonly: bool)

  datatype WidgetState = WidgetState(
    canEdit: bool,
    dragStart: Option<Point>,
    origin: Option<Point>,
    listening: bool)

  /** A freshly mounted widget is editable and not dragging. */
  const Mounted := WidgetState(true, None, None, false)

  datatype Event =
    | KeyDown(key: string)
    | Click
    | DoubleClick
    | MouseDown(pointer: Point)
    | DocMouseMove(pointer: Point)  // reaches the widget only while it listens
    | DocMouseUp                    // likewise
    | SelectionSettled              // the effect on `isSelected`
    | TextInput(text: string)
    | Focus
    | Blur

  datatype Step = Step(state: WidgetState, effects: seq<Effect>)

  /** `handleKeyDown`: Delete or Backspace deletes a selected widget that
      is not being edited; Escape leaves editing. */
  function OnKeyDown(props: WidgetProps, st: WidgetState, key: string): (s: Step)
    ensures s.effects == [DeleteMe] <==> props.isSelected && !st.canEdit && (key == "Delete" || key == "Backspace")
    ensures s.effects == [] || s.effects == [DeleteMe]
    ensures s.state.canEdit <==> st.canEdit && key != "Escape"
    ensures s.state == st.(canEdit := s.state.canEdit)
  {
    var del := if props.isSelected && !st.canEdit && (key == "Delete" || key == "Backspace") then [DeleteMe] else [];
    var canEdit := if st.canEdit && key == "Escape" then false else st.canEdit;
    Step(st.(canEdit := canEdit), del)
  }

  /** `handleClick`: selects unless the slide is read-only. */
  function OnClick(props: WidgetProps, st: WidgetState): (s: Step)
    ensures s.state == st
    ensures s.effects == (if props.readonly then [] else [SelectMe])
  {
    Step(st, if props.readonly then [] else [SelectMe])
  }

  /** `handleDoubleClick`: enters editing unless the slide is read-only. */
  function OnDoubleClick(props: WidgetProps, st: WidgetState): (s: Step)
    ensures s.effects == []
    ensures props.readonly ==> s.state == st
    ensures !props.readonly ==> s.state == st.(canEdit := true)
  {
    if props.readonly then Step(st, []) else Step(st.(canEdit := true), [])
  }

  /** `handleMouseDown`: on a writable slide, opens a batch and selects;
      with the select tool it also records the pointer and the widget
      position and attaches the document listeners. */
  function OnMouseDown(props: WidgetProps, st: WidgetState, at: Point): (s: Step)
    ensures props.readonly ==> s == Step(st, [])
    ensures !props.readonly ==> s.effects == [Batch(EditorHistory.StartBatch), SelectMe]
    ensures !props.readonly && props.tool != SelectTool ==> s.state == st
    ensures !props.readonly && props.tool == SelectTool ==>
              s.state == st.(dragStart := Some(at),
                             origin := Some(Point(props.widget.x, props.widget.y)),
                             listening := true)
  {
    if props.readonly then Step(st, [])
    else
      var effects := [Batch(EditorHistory.StartBatch), SelectMe];
      if props.tool != SelectTool then Step(st, effects)
      else Step(st.(dragStart := Some(at), origin := Some(Point(props.widget.x, props.widget.y)), listening := true), effects)
  }

  /** The position patch of a drag: the recorded origin moved by the
      pointer's offset from where the drag started. */
  function DragPatch(origin: Point, start: Point, at: Point): (p: WidgetPatch)
    ensures p.x == Some(origin.x + (at.x - start.x)) && p.y == Some(origin.y + (at.y - start.y))
    ensures p.id.None? && p.width.None? && p.height.None? && p.text.None?
  {
    NoPatch.(x := Some(origin.x + (at.x - start.x)), y := Some(origin.y + (at.y - start.y)))
  }

  /** `handleMouseMove`, while attached: moves the widget when both refs
      are set. */
  function OnDocMouseMove(st: WidgetState, at: Point): (s: Step)
    ensures s.state == st
    ensures st.listening && st.dragStart.Some? && st.origin.Some? ==>
              s.effects == [UpdateMe(DragPatch(st.origin.value, st.dragStart.value, at))]
    ensures !(st.listening && st.dragStart.Some? && st.origin.Some?) ==> s.effects == []
  {
    if st.listening && st.dragStart.Some? && st.origin.Some? then
      Step(st, [UpdateMe(DragPatch(st.origin.value, st.dragStart.value, at))])
    else Step(st, [])
  }

  /** `handleMouseUp`, while attached: clears the refs, closes the batch
      and detaches both listeners. */
  function OnDocMouseUp(st: WidgetState): (s: Step)
    ensures !st.listening ==> s == Step(st, [])
    ensures st.listening ==>
              s == Step(st.(dragStart := None, origin := None, listening := false), [Batch(EditorHistory.EndBatch)])
  {
    if !st.listening then Step(st, [])
    else Step(st.(dragStart := None, origin := None, listening := false), [Batch(EditorHistory.EndBatch)])
  }

  /** The `isSelected` effect: a deselected widget leaves editing. */
  function OnSelectionSettled(props: WidgetProps, st: WidgetState): (s: Step)
    ensures s.effects == []
    ensures !props.isSelected ==> s.state == st.(canEdit := false)
    ensures props.isSelected ==> s.state == st
  {
    if !props.isSelected then Step(st.(canEdit := false), []) else Step(st, [])
  }

  /** The textarea's `onChange`; a read-only textarea (not editing)
      produces no change. */
  function OnTextInput(st: WidgetState, text: string): (s: Step)
    ensures s.state == st
    ensures st.canEdit ==> s.effects == [UpdateMe(NoPatch.(text := Some(text)))]
    ensures !st.canEdit ==> s.effects == []
  {
    if st.canEdit then Step(st, [UpdateMe(NoPatch.(text := Some(text)))]) else Step(st, [])
  }

  /** Focus opens a batch, whatever the slide's permission. */
  function OnFocus(st: WidgetState): Step
  {
    Step(st, [Batch(EditorHistory.StartBatch)])
  }

  /** Blur closes a batch and leaves editing. */
  function OnBlur(st: WidgetState): Step
  {
    Step(st.(canEdit := false), [Batch(EditorHistory.EndBatch)])
  }

  /** One event. */
  function Handle(props: WidgetProps, st: WidgetState, e: Event): Step {
    match e
    case KeyDown(key) => OnKeyDown(props, st, key)
    case Click => OnClick(props, st)
    case DoubleClick => OnDoubleClick(props, st)
    case MouseDown(at) => OnMouseDown(props, st, at)
    case DocMouseMove(at) => OnDocMouseMove(st, at)
    case DocMouseUp => OnDocMouseUp(st)
    case SelectionSettled => OnSelectionSettled(props, st)
    case TextInput(text) => OnTextInput(st, text)
    case Focus => OnFocus(st)
    case Blur => OnBlur(st)
  }

  /** Events in order, with the props held fixed; effects accumulate. */
  function Run(props: WidgetProps, st: WidgetState, events: seq<Event>): Step
    decreases |events|
  {
    if |events| == 0 then Step(st, [])
    else
      var first := Handle(props, st, events[0]);
      var rest := Run(props, first.state, events[1..]);
      Step(rest.state, first.effects + rest.effects)
  }

  /** One event followed by the rest. */
  lemma RunCons(props: WidgetProps, st: WidgetState, e: Event, rest: seq<Event>)
    ensures var h := Handle(props, st, e);
            var r := Run(props, h.state, rest);
            Run(props, st, [e] + rest) == Step(r.state, h.effects + r.effects)
  {
    assert ([e] + rest)[0] == e && ([e] + rest)[1..] == rest;
  }

  /** A single event. */
  lemma RunOne(props: WidgetProps, st: WidgetState, e: Event)
    ensures Run(props, st, [e]) == Handle(props, st, e)
  {
    RunCons(props, st, e, []);
    assert [e] + [] == [e];
    assert Handle(props, st, e).effects + [] == Handle(props, st, e).effects;
  }

  /** The history calls among the effects, in order. */
  function BatchCalls(effects: seq<Effect>): (calls: seq<EditorHistory.BatchCall>)
    ensures |calls| <= |effects|
    decreases |effects|
  {
    if |effects| == 0 then []
    else (if effects[0].Batch? then [effects[0].call] else []) + BatchCalls(effects[1..])
  }

  /** How many times an effect occurs. */
  function Count(effects: seq<Effect>, e: Effect): nat
    decreases |effects|
  {
    if |effects| == 0 then 0 else (if effects[0] == e then 1 else 0) + Count(effects[1..], e)
  }

  lemma {:induction false} CountConcat(a: seq<Effect>, b: seq<Effect>, e: Effect)
    ensures Count(a + b, e) == Count(a, e) + Count(b, e)
    decreases |a|
  {
    if |a| > 0 {
      assert (a + b)[1..] == a[1..] + b;
      CountConcat(a[1..], b, e);
    } else {
      assert a + b == b;
    }
  }

  /** Whether every event is a document mouse move. */
  predicate AllMoves(events: seq<Event>) {
    forall i :: 0 <= i < |events| ==> events[i].DocMouseMove?
  }

  /** A read-only slide's widget ignores the pointer entirely. */
  lemma ReadonlyIgnoresPointer(props: WidgetProps, st: WidgetState, at: Point)
    requires props.readonly
    ensures Handle(props, st, Click) == Step(st, [])
    ensures Handle(props, st, DoubleClick) == Step(st, [])
    ensures Handle(props, st, MouseDown(at)) == Step(st, [])
  {
  }

  /** While a drag is attached, moves leave the state alone and emit only
      position updates, one per move, each relative to the drag's start. */
  lemma {:induction false} MovesOnlyUpdate(props: WidgetProps, st: WidgetState, moves: seq<Event>)
    requires st.listening && st.dragStart.Some? && st.origin.Some?
    requires AllMoves(moves)
    ensures var s := Run(props, st, moves);
            && s.state == st
            && |s.effects| == |moves|
            && forall i :: 0 <= i < |moves| ==>
                 s.effects[i] == UpdateMe(DragPatch(st.origin.value, st.dragStart.value, moves[i].pointer))
    decreases |moves|
  {
    if |moves| > 0 {
      assert AllMoves(moves[1..]) by {
        forall i | 0 <= i < |moves[1..]|
          ensures moves[1..][i].DocMouseMove?
        {
          assert moves[1..][i] == moves[i + 1];
        }
      }
      MovesOnlyUpdate(props, st, moves[1..]);
      var rest := Run(props, st, moves[1..]);
      forall i | 1 <= i < |moves|
        ensures (Run(props, st, moves)).effects[i] ==
                UpdateMe(DragPatch(st.origin.value, st.dragStart.value, moves[i].pointer))
      {
        assert moves[i] == moves[1..][i - 1];
      }
    }
  }

  /** A select-tool drag moves the widget to its origin plus the pointer's
      offset: pressing at `p0` and moving to `p1` sends exactly that
      position. */
  lemma DragFollowsPointer(props: WidgetProps, st: WidgetState, p0: Point, p1: Point)
    requires !props.readonly && props.tool == SelectTool
    ensures var s := Run(props, st, [MouseDown(p0), DocMouseMove(p1)]);
            && s.effects == [Batch(EditorHistory.StartBatch), SelectMe,
                             UpdateMe(NoPatch.(x := Some(props.widget.x + p1.x - p0.x),
                                               y := Some(props.widget.y + p1.y - p0.y)))]
  {
    var down := Handle(props, st, MouseDown(p0));
    RunCons(props, st, MouseDown(p0), [DocMouseMove(p1)]);
    RunOne(props, down.state, DocMouseMove(p1));
    assert [MouseDown(p0)] + [DocMouseMove(p1)] == [MouseDown(p0), DocMouseMove(p1)];
  }

  /** A select-tool press, any number of moves and a release open and
      close exactly one batch, and leave the widget detached. */
  lemma SelectDragPairsBatches(props: WidgetProps, st: WidgetState, p0: Point, moves: seq<Event>)
    requires !props.readonly && props.tool == SelectTool
    requires AllMoves(moves)
    ensures var s := Run(props, st, [MouseDown(p0)] + moves + [DocMouseUp]);
            && Count(s.effects, Batch(EditorHistory.StartBatch)) == 1
            && Count(s.effects, Batch(EditorHistory.EndBatch)) == 1
            && !s.state.listening && s.state.dragStart.None?
  {
    var down := OnMouseDown(props, st, p0);
    var held := down.state;
    var evs := [MouseDown(p0)] + moves + [DocMouseUp];
    assert evs[0] == MouseDown(p0);
    assert evs[1..] == moves + [DocMouseUp];
    RunConcat(props, held, moves, [DocMouseUp]);
    MovesOnlyUpdate(props, held, moves);
    var mv := Run(props, held, moves);
    var up := Run(props, held, [DocMouseUp]);
    assert up.effects == [Batch(EditorHistory.EndBatch)];
    NoBatchInUpdates(mv.effects, moves, held);
    CountConcat(down.effects, mv.effects + up.effects, Batch(EditorHistory.StartBatch));
    CountConcat(mv.effects, up.effects, Batch(EditorHistory.StartBatch));
    CountConcat(down.effects, mv.effects + up.effects, Batch(EditorHistory.EndBatch));
    CountConcat(mv.effects, up.effects, Batch(EditorHistory.EndBatch));
  }

  /** Position updates hold no batch calls. */
  lemma {:induction false} NoBatchInUpdates(effects: seq<Effect>, moves: seq<Event>, st: WidgetState)
    requires st.dragStart.Some? && st.origin.Some?
    requires |effects| == |moves| && AllMoves(moves)
    requires forall i :: 0 <= i < |moves| ==>
               effects[i] == UpdateMe(DragPatch(st.origin.value, st.dragStart.value, moves[i].pointer))
    ensures Count(effects, Batch(EditorHistory.StartBatch)) == 0
    ensures Count(effects, Batch(EditorHistory.EndBatch)) == 0
    decreases |effects|
  {
    if |effects| > 0 {
      assert AllMoves(moves[1..]) by {
        forall i | 0 <= i < |moves[1..]|
          ensures moves[1..][i].DocMouseMove?
        {
          assert moves[1..][i] == moves[i + 1];
        }
      }
      forall i | 0 <= i < |moves[1..]|
        ensures effects[1..][i] == UpdateMe(DragPatch(st.origin.value, st.dragStart.value, moves[1..][i].pointer))
      {
        assert effects[1..][i] == effects[i + 1] && moves[1..][i] == moves[i + 1];
      }
      NoBatchInUpdates(effects[1..], moves[1..], st);
    }
  }

  /** Running two event lists one after the other. */
  lemma {:induction false} RunConcat(props: WidgetProps, st: WidgetState, a: seq<Event>, b: seq<Event>)
    ensures var ra := Run(props, st, a);
            var rb := Run(props, ra.state, b);
            Run(props, st, a + b) == Step(rb.state, ra.effects + rb.effects)
    decreases |a|
  {
    if |a| == 0 {
      assert a + b == b;
      assert [] + Run(props, st, b).effects == Run(props, st, b).effects;
    } else {
      var e, tail := a[0], a[1..];
      assert [e] + (tail + b) == a + b;
      assert [e] + tail == a;
      var h := Handle(props, st, e);
      RunConcat(props, h.state, tail, b);
      var rt := Run(props, h.state, tail);
      var rb := Run(props, rt.state, b);
      assert h.effects + (rt.effects + rb.effects) == (h.effects + rt.effects) + rb.effects;
      RunCons(props, st, e, tail + b);
      RunCons(props, st, e, tail);
    }
  }

  /** With the text tool a press opens a batch but attaches no listener,
      so the release never closes it and the history stays paused. */
  lemma TextToolLeavesBatchOpen(props: WidgetProps, st: WidgetState, p0: Point, paused: bool)
    requires !props.readonly && props.tool == TextTool && !st.listening
    ensures var s := Run(props, st, [MouseDown(p0), DocMouseUp]);
            && s.effects == [Batch(EditorHistory.StartBatch), SelectMe]
            && EditorHistory.ApplyBatches(paused, BatchCalls(s.effects))
  {
    var down := Handle(props, st, MouseDown(p0));
    RunCons(props, st, MouseDown(p0), [DocMouseUp]);
    RunOne(props, down.state, DocMouseUp);
    assert [MouseDown(p0)] + [DocMouseUp] == [MouseDown(p0), DocMouseUp];
    var effects := [Batch(EditorHistory.StartBatch), SelectMe];
    assert BatchCalls(effects) == [EditorHistory.StartBatch] + BatchCalls(effects[1..]);
    assert effects[1..][1..] == [];
  }

  /** The delete keys remove the widget only when it is selected and not
      being edited; Escape is what leaves editing. */
  lemma EscapeThenDelete(props: WidgetProps, st: WidgetState)
    requires props.isSelected && st.canEdit
    ensures Handle(props, st, KeyDown("Delete")).effects == []
    ensures Run(props, st, [KeyDown("Escape"), KeyDown("Delete")]).effects == [DeleteMe]
  {
    var esc := Handle(props, st, KeyDown("Escape"));
    assert !esc.state.canEdit;
    RunCons(props, st, KeyDown("Escape"), [KeyDown("Delete")]);
    RunOne(props, esc.state, KeyDown("Delete"));
    assert [KeyDown("Escape")] + [KeyDown("Delete")] == [KeyDown("Escape"), KeyDown("Delete")];
  }

  /** A freshly mounted widget that is not selected leaves editing as soon
      as the selection effect runs, so it can no longer be typed into. */
  lemma MountedUnselectedIsLocked(props: WidgetProps, text: string)
    requires !props.isSelected
    ensures var s := Run(props, Mounted, [SelectionSettled, TextInput(text)]);
            !s.state.canEdit && s.effects == []
  {
    var settled := Handle(props, Mounted, SelectionSettled);
    RunCons(props, Mounted, SelectionSettled, [TextInput(text)]);
    RunOne(props, settled.state, TextInput(text));
    assert [SelectionSettled] + [TextInput(text)] == [SelectionSettled, TextInput(text)];
  }

  /** Focus and a select-tool drag share one history: releasing the drag
      resumes history while the text box still has focus. */
  lemma DragInsideFocusEndsBatch(props: WidgetProps, st: WidgetState, p0: Point, paused: bool)
    requires !props.readonly && props.tool == SelectTool
    ensures var s := Run(props, st, [Focus, MouseDown(p0), DocMouseUp]);
            && BatchCalls(s.effects) == [EditorHistory.StartBatch, EditorHistory.StartBatch, EditorHistory.EndBatch]
            && !EditorHistory.ApplyBatches(paused, BatchCalls(s.effects))
  {
    var f := Handle(props, st, Focus);
    var d := Handle(props, f.state, MouseDown(p0));
    RunCons(props, st, Focus, [MouseDown(p0), DocMouseUp]);
    RunCons(props, f.state, MouseDown(p0), [DocMouseUp]);
    RunOne(props, d.state, DocMouseUp);
    assert [Focus] + [MouseDown(p0), DocMouseUp] == [Focus, MouseDown(p0), DocMouseUp];
    assert [MouseDown(p0)] + [DocMouseUp] == [MouseDown(p0), DocMouseUp];
    var effects := [Batch(EditorHistory.StartBatch), Batch(EditorHistory.StartBatch), SelectMe,
                    Batch(EditorHistory.EndBatch)];
    assert Run(props, st, [Focus, MouseDown(p0), DocMouseUp]).effects == effects;
    assert effects[1..] == [Batch(EditorHistory.StartBatch), SelectMe, Batch(EditorHistory.EndBatch)];
    assert effects[1..][1..] == [SelectMe, Batch(EditorHistory.EndBatch)];
    assert effects[1..][1..][1..] == [Batch(EditorHistory.EndBatch)];
    assert BatchCalls([Batch(EditorHistory.EndBatch)]) == [EditorHistory.EndBatch];
    EditorHistory.NestedBatchEndsEarly(paused);
  }
}
