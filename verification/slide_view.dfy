/** The per-slide handlers of src/components/Slide.tsx: the grant-only
    read-only test, adding, deleting and updating a widget in the slide
    list of a fresh storage snapshot, and the presence cursor. */
module SlideView {
  import opened Common
  import opened Model
  import Permission

  // ---------------------------------------------------------------------
  // Read-only test
  // ---------------------------------------------------------------------

  /** The presence grant as the component reads it: a missing value is `[]`. */
  function EffectiveGrant(grant: Option<Grant>): Grant {
    grant.GetOr(Ids([]))
  }

  /** `isReadonly`: looks only at the grant, never at the role. A slide is
      writable exactly when the grant is "all" or lists it. */
  function IsReadonly(grant: Option<Grant>, slideId: Id): (ro: bool)
    ensures !ro <==> EffectiveGrant(grant) == All
                     || (EffectiveGrant(grant).Ids? && slideId in EffectiveGrant(grant).ids)
  {
    match EffectiveGrant(grant)
    case All => false
    case EmptyStr => true
    case Ids(l) => |l| == 0 || slideId !in l
  }

  /** Before any grant is published every slide is read-only. */
  lemma MissingGrantIsReadonly(slideId: Id)
    ensures IsReadonly(None, slideId)
  {
  }

  /** For a non-owner holding "all" or a list, the two permission rules agree. */
  lemma ReadonlyAgreesForEditors(role: string, grant: Grant, slideId: Id)
    requires role != "owner" && grant != EmptyStr
    ensures IsReadonly(Some(grant), slideId) <==> !Permission.CanEditSlide(role, grant, slideId)
  {
  }

  /** The two rules disagree for an owner whose grant lists nothing: the
      hook allows every slide, the component locks every slide. */
  lemma OwnerWithEmptyGrantDisagrees(slideId: Id)
    ensures Permission.CanEditSlide("owner", Ids([]), slideId)
    ensures IsReadonly(Some(Ids([])), slideId)
    ensures Permission.CanEditSlide("owner", EmptyStr, slideId)
    ensures IsReadonly(Some(EmptyStr), slideId)
  {
  }

  // ---------------------------------------------------------------------
  // Widget list edits
  // ---------------------------------------------------------------------

  /** `slides.map(s => s.id !== slideId ? s : { ...s, widgets: f(s.widgets) })`. */
  function MapTarget(slides: seq<Slide>, slideId: Id, f: seq<Widget> -> seq<Widget>): (r: seq<Slide>)
    ensures |r| == |slides|
    ensures forall i :: 0 <= i < |slides| ==> r[i].id == slides[i].id
    ensures forall i :: 0 <= i < |slides| && slides[i].id != slideId ==> r[i] == slides[i]
    ensures forall i :: 0 <= i < |slides| && slides[i].id == slideId ==> r[i].widgets == f(slides[i].widgets)
  {
    seq(|slides|, i requires 0 <= i < |slides| =>
      if slides[i].id != slideId then slides[i] else slides[i].(widgets := f(slides[i].widgets)))
  }

  /** A widget made by a click: default size 250 x 120 and no text. */
  function NewWidget(id: Id, at: Point): Widget {
    Widget(id, at.x, at.y, 250, 120, "")
  }

  /** What a click on the slide surface leaves behind: the slide list to
      write and the selected widget. */
  datatype ClickResult = ClickResult(slides: seq<Slide>, selected: Option<Id>)

  /** `handleSlideClick`: on a writable slide it clears the selection, and
      with the text tool appends a new widget at the click position to the
      target slide of the fresh snapshot and selects it. */
  function SlideClick(grant: Option<Grant>, tool: Tool, slideId: Id, at: Point, freshId: Id,
                      slides: seq<Slide>, selected: Option<Id>): (r: ClickResult)
    ensures IsReadonly(grant, slideId) ==> r == ClickResult(slides, selected)
    ensures !IsReadonly(grant, slideId) && tool != TextTool ==> r == ClickResult(slides, None)
    ensures !IsReadonly(grant, slideId) && tool == TextTool ==>
      && r.selected == Some(freshId)
      && |r.slides| == |slides|
      && (forall i :: 0 <= i < |slides| ==> r.slides[i].id == slides[i].id)
      && (forall i :: 0 <= i < |slides| && slides[i].id != slideId ==> r.slides[i] == slides[i])
      && (forall i :: 0 <= i < |slides| && slides[i].id == slideId ==>
            r.slides[i].widgets == slides[i].widgets + [Widget(freshId, at.x, at.y, 250, 120, "")])
  {
    if IsReadonly(grant, slideId) then ClickResult(slides, selected)
    else if tool != TextTool then ClickResult(slides, None)
    else
      var w := NewWidget(freshId, at);
      ClickResult(MapTarget(slides, slideId, ws => ws + [w]), Some(freshId))
  }

  /** `widgets.filter(w => w.id !== widgetId)`. */
  function RemoveWidget(ws: seq<Widget>, widgetId: Id): (r: seq<Widget>)
    ensures |r| <= |ws|
    ensures forall w :: w in r <==> w in ws && w.id != widgetId
    ensures (forall i :: 0 <= i < |ws| ==> ws[i].id != widgetId) ==> r == ws
    decreases |ws|
  {
    if |ws| == 0 then []
    else if ws[0].id == widgetId then RemoveWidget(ws[1..], widgetId)
    else [ws[0]] + RemoveWidget(ws[1..], widgetId)
  }

  /** Filtering distributes over concatenation, so the survivors keep
      their relative order. */
  lemma {:induction false} RemoveWidgetConcat(a: seq<Widget>, b: seq<Widget>, widgetId: Id)
    ensures RemoveWidget(a + b, widgetId) == RemoveWidget(a, widgetId) + RemoveWidget(b, widgetId)
    decreases |a|
  {
    if |a| > 0 {
      assert (a + b)[1..] == a[1..] + b;
      RemoveWidgetConcat(a[1..], b, widgetId);
    } else {
      assert a + b == b;
    }
  }

  /** Removing an id twice is removing it once. */
  lemma {:induction false} RemoveWidgetIdempotent(ws: seq<Widget>, widgetId: Id)
    ensures RemoveWidget(RemoveWidget(ws, widgetId), widgetId) == RemoveWidget(ws, widgetId)
  {
    var r := RemoveWidget(ws, widgetId);
    assert forall i :: 0 <= i < |r| ==> r[i].id != widgetId by {
      forall i | 0 <= i < |r| ensures r[i].id != widgetId {
        assert r[i] in r;
      }
    }
  }

  /** `handleDeleteWidget`: on a writable slide, removes every widget with
      the id from the target slide only, and clears the selection. */
  function DeleteWidget(grant: Option<Grant>, slideId: Id, widgetId: Id,
                        slides: seq<Slide>, selected: Option<Id>): (r: ClickResult)
    ensures IsReadonly(grant, slideId) ==> r == ClickResult(slides, selected)
    ensures !IsReadonly(grant, slideId) ==>
      && r.selected == None
      && |r.slides| == |slides|
      && (forall i :: 0 <= i < |slides| ==> r.slides[i].id == slides[i].id)
      && (forall i :: 0 <= i < |slides| && slides[i].id != slideId ==> r.slides[i] == slides[i])
      && (forall i :: 0 <= i < |slides| && slides[i].id == slideId ==>
            forall w :: w in r.slides[i].widgets <==> w in slides[i].widgets && w.id != widgetId)
  {
    if IsReadonly(grant, slideId) then ClickResult(slides, selected)
    else ClickResult(MapTarget(slides, slideId, ws => RemoveWidget(ws, widgetId)), None)
  }

  /** Deleting a widget id that no slide holds leaves the slides as they are. */
  lemma DeleteAbsentWidget(grant: Option<Grant>, slideId: Id, widgetId: Id,
                           slides: seq<Slide>, selected: Option<Id>)
    requires forall i, j :: 0 <= i < |slides| && 0 <= j < |slides[i].widgets| ==>
               slides[i].widgets[j].id != widgetId
    ensures DeleteWidget(grant, slideId, widgetId, slides, selected).slides == slides
  {
    var r := DeleteWidget(grant, slideId, widgetId, slides, selected);
    if !IsReadonly(grant, slideId) {
      forall i | 0 <= i < |slides|
        ensures r.slides[i] == slides[i]
      {
        if slides[i].id == slideId {
          assert r.slides[i].widgets == RemoveWidget(slides[i].widgets, widgetId);
        }
      }
    }
  }

  /** Deleting the same widget twice is deleting it once. */
  lemma DeleteWidgetIdempotent(grant: Option<Grant>, slideId: Id, widgetId: Id,
                               slides: seq<Slide>, selected: Option<Id>)
    ensures var once := DeleteWidget(grant, slideId, widgetId, slides, selected);
            DeleteWidget(grant, slideId, widgetId, once.slides, once.selected) == once
  {
    var once := DeleteWidget(grant, slideId, widgetId, slides, selected);
    var twice := DeleteWidget(grant, slideId, widgetId, once.slides, once.selected);
    if !IsReadonly(grant, slideId) {
      forall i | 0 <= i < |slides|
        ensures twice.slides[i] == once.slides[i]
      {
        if slides[i].id == slideId {
          RemoveWidgetIdempotent(slides[i].widgets, widgetId);
        }
      }
    }
  }

  /** `widgets.map(w => w.id === widgetId ? { ...w, ...patch } : w)`. */
  function PatchWidgets(ws: seq<Widget>, widgetId: Id, p: WidgetPatch): (r: seq<Widget>)
    ensures |r| == |ws|
    ensures forall j :: 0 <= j < |ws| && ws[j].id != widgetId ==> r[j] == ws[j]
    ensures forall j :: 0 <= j < |ws| && ws[j].id == widgetId ==> r[j] == Merge(ws[j], p)
  {
    seq(|ws|, j requires 0 <= j < |ws| => if ws[j].id == widgetId then Merge(ws[j], p) else ws[j])
  }

  /** `handleWidgetUpdate`: on a writable slide, merges the supplied fields
      into the matching widgets of the target slide; nothing else changes. */
  function UpdateWidget(grant: Option<Grant>, slideId: Id, widgetId: Id, p: WidgetPatch,
                        slides: seq<Slide>): (r: seq<Slide>)
    ensures IsReadonly(grant, slideId) ==> r == slides
    ensures |r| == |slides|
    ensures forall i :: 0 <= i < |slides| ==> r[i].id == slides[i].id && |r[i].widgets| == |slides[i].widgets|
    ensures forall i :: 0 <= i < |slides| && slides[i].id != slideId ==> r[i] == slides[i]
    ensures !IsReadonly(grant, slideId) ==>
      forall i, j :: 0 <= i < |slides| && slides[i].id == slideId && 0 <= j < |slides[i].widgets| ==>
        r[i].widgets[j] == (if slides[i].widgets[j].id == widgetId then Merge(slides[i].widgets[j], p)
                            else slides[i].widgets[j])
  {
    if IsReadonly(grant, slideId) then slides
    else MapTarget(slides, slideId, ws => PatchWidgets(ws, widgetId, p))
  }

  /** Updating a widget id that no slide holds is a no-op. */
  lemma UpdateAbsentWidget(grant: Option<Grant>, slideId: Id, widgetId: Id, p: WidgetPatch,
                           slides: seq<Slide>)
    requires forall i, j :: 0 <= i < |slides| && 0 <= j < |slides[i].widgets| ==>
               slides[i].widgets[j].id != widgetId
    ensures UpdateWidget(grant, slideId, widgetId, p, slides) == slides
  {
    var r := UpdateWidget(grant, slideId, widgetId, p, slides);
    forall i | 0 <= i < |slides|
      ensures r[i] == slides[i]
    {
      assert r[i].widgets == slides[i].widgets;
    }
  }

  /** Applying the same update twice is applying it once. */
  lemma UpdateWidgetIdempotent(grant: Option<Grant>, slideId: Id, widgetId: Id, p: WidgetPatch,
                               slides: seq<Slide>)
    ensures var once := UpdateWidget(grant, slideId, widgetId, p, slides);
            UpdateWidget(grant, slideId, widgetId, p, once) == once
  {
    var once := UpdateWidget(grant, slideId, widgetId, p, slides);
    var twice := UpdateWidget(grant, slideId, widgetId, p, once);
    forall i | 0 <= i < |slides|
      ensures twice[i] == once[i]
    {
      forall j | 0 <= j < |once[i].widgets|
        ensures twice[i].widgets[j] == once[i].widgets[j]
      {
        if slides[i].id == slideId && !IsReadonly(grant, slideId) && slides[i].widgets[j].id == widgetId {
          MergeIdempotent(slides[i].widgets[j], p);
        }
      }
    }
  }

  // ---------------------------------------------------------------------
  // Presence cursor
  // ---------------------------------------------------------------------

  /** `handleMouseMove`: publishes the pointer position and this slide. */
  function OnMouseMove(me: Presence, slideId: Id, at: Point): Presence {
    me.(cursor := Some(at), activeSlideId := Some(slideId))
  }

  /** `handleMouseLeave`: clears both the cursor and the active slide. */
  function OnMouseLeave(me: Presence): Presence {
    me.(cursor := None, activeSlideId := None)
  }

  /** A remote cursor as drawn: where, in which colour, with which caption. */
  datatype CursorMark = CursorMark(connectionId: ConnId, at: Point, color: string, caption: string)

  /** Whether another connection's cursor is drawn on this slide. */
  predicate ShowsOn(o: Other, slideId: Id) {
    o.presence.Some? && o.presence.value.cursor.Some? && o.presence.value.activeSlideId == Some(slideId)
  }

  /** JavaScript's `v || fallback` on an optional string. */
  function OrElse(v: Option<string>, fallback: string): string {
    if v.Some? && v.value != "" then v.value else fallback
  }

  /** The mark drawn for a connection whose cursor shows. */
  function MarkOf(o: Other): CursorMark
    requires o.presence.Some? && o.presence.value.cursor.Some?
  {
    var p := o.presence.value;
    CursorMark(o.connectionId, p.cursor.value, OrElse(p.color, "#000"), OrElse(p.name, "User"))
  }

  /** The remote cursors drawn on a slide, in the order of `others`. */
  function RemoteCursors(others: seq<Other>, slideId: Id): (marks: seq<CursorMark>)
    ensures |marks| <= |others|
    ensures forall i :: 0 <= i < |others| && ShowsOn(others[i], slideId) ==> MarkOf(others[i]) in marks
    ensures forall m :: m in marks ==> exists i :: 0 <= i < |others| && ShowsOn(others[i], slideId) && m == MarkOf(others[i])
    decreases |others|
  {
    if |others| == 0 then []
    else
      var rest := RemoteCursors(others[1..], slideId);
      assert forall i :: 1 <= i < |others| ==> others[i] == others[1..][i - 1];
      if ShowsOn(others[0], slideId) then [MarkOf(others[0])] + rest else rest
  }

  /** Drawing distributes over splitting the connection list, so the marks
      keep the order of `others`. */
  lemma {:induction false} RemoteCursorsConcat(a: seq<Other>, b: seq<Other>, slideId: Id)
    ensures RemoteCursors(a + b, slideId) == RemoteCursors(a, slideId) + RemoteCursors(b, slideId)
    decreases |a|
  {
    if |a| == 0 {
      assert a + b == b;
    } else {
      assert (a + b)[1..] == a[1..] + b;
      RemoteCursorsConcat(a[1..], b, slideId);
    }
  }

  /** A connection that moved over slide `s` shows on `s` and on no other slide. */
  lemma MovedCursorShowsOnlyThere(conn: ConnId, me: Presence, s: Id, at: Point, t: Id)
    ensures ShowsOn(Other(conn, Some(OnMouseMove(me, s, at))), t) <==> t == s
  {
  }

  /** After leaving, a connection's cursor shows on no slide. */
  lemma LeftCursorShowsNowhere(conn: ConnId, me: Presence, t: Id)
    ensures !ShowsOn(Other(conn, Some(OnMouseLeave(me))), t)
  {
  }
}
