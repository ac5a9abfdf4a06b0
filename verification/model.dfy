/** The shared document and presence records of the collaborative slide
    editor (liveblocks.config.ts and src/components/Editor.tsx). The
    document is a value; every handler maps a snapshot to a new value. */
module Model {
  import opened Common

  type Id = string

  /** A Liveblocks connection id. */
  type ConnId = int

  datatype Point = Point(x: int, y: int)

  datatype Widget = Widget(id: Id, x: int, y: int, width: int, height: int, text: string)

  datatype Slide = Slide(id: Id, widgets: seq<Widget>)

  /** The persisted storage root: an owner connection (or `null`) and the slides. */
  datatype Deck = Deck(ownerId: Option<ConnId>, slides: seq<Slide>)

  datatype Role = Owner | Editor

  /** The editor's active tool. */
  datatype Tool = SelectTool | TextTool

  /** A presence `permissibleSlides` value: the string "all", the empty
      string (published for an empty invite token), or a list of slide ids. */
  datatype Grant = All | EmptyStr | Ids(ids: seq<Id>)

  /** The ephemeral per-connection presence record; every field is absent
      until first published. */
  datatype Presence = Presence(
    name: Option<string>,
    color: Option<string>,
    role: Option<Role>,
    grant: Option<Grant>,
    cursor: Option<Point>,
    activeSlideId: Option<Id>)

  /** The presence of a connection that has published nothing yet. */
  const EmptyPresence := Presence(None, None, None, None, None, None)

  /** Another connection as the presence stream reports it. */
  datatype Other = Other(connectionId: ConnId, presence: Option<Presence>)

  /** A `Partial<TextWidgetType>`: the fields an update supplies. */
  datatype WidgetPatch = WidgetPatch(
    id: Option<Id>,
    x: Option<int>,
    y: Option<int>,
    width: Option<int>,
    height: Option<int>,
    text: Option<string>)

  const NoPatch := WidgetPatch(None, None, None, None, None, None)

  /** `{ ...w, ...patch }`: every supplied field overrides, the rest stay. */
  function Merge(w: Widget, p: WidgetPatch): (r: Widget)
    ensures r.id == p.id.GetOr(w.id) && r.text == p.text.GetOr(w.text)
    ensures r.x == p.x.GetOr(w.x) && r.y == p.y.GetOr(w.y)
    ensures r.width == p.width.GetOr(w.width) && r.height == p.height.GetOr(w.height)
  {
    Widget(p.id.GetOr(w.id), p.x.GetOr(w.x), p.y.GetOr(w.y),
           p.width.GetOr(w.width), p.height.GetOr(w.height), p.text.GetOr(w.text))
  }

  /** Merging the same patch twice is merging it once, and the empty
      patch changes nothing. */
  lemma MergeIdempotent(w: Widget, p: WidgetPatch)
    ensures Merge(Merge(w, p), p) == Merge(w, p)
    ensures Merge(w, NoPatch) == w
  {
  }

  /** The ids of a slide list, in order. */
  function SlideIds(slides: seq<Slide>): (ids: seq<Id>)
    ensures |ids| == |slides|
    ensures forall i :: 0 <= i < |slides| ==> ids[i] == slides[i].id
  {
    seq(|slides|, i requires 0 <= i < |slides| => slides[i].id)
  }
}
