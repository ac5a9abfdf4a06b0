/** The three per-slide controls of src/components/SlideWrapper.tsx and the
    handlers of SlideContainer they call. The controls are the only place
    that checks the role before a delete. */
module SlideWrapper {
  import opened Common
  import opened Model
  import opened SlideContainer

  datatype Control = AddAboveButton | DeleteButton | AddBelowButton

  /** What a control asks the slide container to do. */
  datatype Intent = AddSlideIntent(flag: Placement, target: Id) | DeleteSlideIntent(target: Id)

  /** `canEditDeck`: the presence role is owner. */
  predicate CanEditDeck(role: Option<Role>) {
    role == Some(Owner)
  }

  /** Pressing a control: every control is disabled unless the role is
      owner; an enabled one emits its intent for this slide. */
  function Press(role: Option<Role>, control: Control, slideId: Id): (r: Option<Intent>)
    ensures r.Some? <==> role == Some(Owner)
    ensures r.Some? ==> r.value.target == slideId
    ensures r.Some? && control == AddAboveButton ==> r.value == AddSlideIntent(Above, slideId)
    ensures r.Some? && control == AddBelowButton ==> r.value == AddSlideIntent(Below, slideId)
    ensures r.Some? && control == DeleteButton ==> r.value == DeleteSlideIntent(slideId)
  {
    if !CanEditDeck(role) then None
    else match control
      case AddAboveButton => Some(AddSlideIntent(Above, slideId))
      case DeleteButton => Some(DeleteSlideIntent(slideId))
      case AddBelowButton => Some(AddSlideIntent(Below, slideId))
  }

  /** The container handler an intent reaches. */
  function Dispatch(intent: Intent, role: Option<Role>, rendered: seq<Slide>,
                    current: seq<Slide>, freshId: Id): seq<Slide>
  {
    match intent
    case AddSlideIntent(flag, target) => AddSlide(role, flag, target, rendered, current, freshId)
    case DeleteSlideIntent(target) => DeleteSlide(current, target, freshId)
  }

  /** The effect of pressing a control on the fresh slide list. */
  function PressAndApply(role: Option<Role>, control: Control, slideId: Id, rendered: seq<Slide>,
                         current: seq<Slide>, freshId: Id): (r: seq<Slide>)
    ensures role != Some(Owner) ==> r == current
    ensures role == Some(Owner) && control == DeleteButton ==> r == DeleteSlide(current, slideId, freshId)
    ensures role == Some(Owner) && control == AddAboveButton ==> r == AddSlide(role, Above, slideId, rendered, current, freshId)
    ensures role == Some(Owner) && control == AddBelowButton ==> r == AddSlide(role, Below, slideId, rendered, current, freshId)
    ensures role == Some(Owner) && control != DeleteButton ==> |r| == |current| + 1
  {
    match Press(role, control, slideId)
    case None => current
    case Some(intent) => Dispatch(intent, role, rendered, current, freshId)
  }

  /** The placement an add button asks for. */
  function PlacementOf(control: Control): Placement
    requires control != DeleteButton
  {
    if control == AddAboveButton then Above else Below
  }

  /** An owner's add press only inserts: the new empty slide sits at the
      slice index computed from the render, and taking it out gives back
      the fresh list. */
  lemma AddPressOnlyInserts(control: Control, slideId: Id, rendered: seq<Slide>,
                            current: seq<Slide>, freshId: Id)
    requires control != DeleteButton
    ensures var r := PressAndApply(Some(Owner), control, slideId, rendered, current, freshId);
            var k := InsertionIndex(PlacementOf(control), FindIndex(rendered, slideId), |current|);
            && |r| == |current| + 1
            && r[k] == EmptySlide(freshId)
            && r[..k] + r[k + 1..] == current
  {
    AddSlideOnlyInserts(PlacementOf(control), slideId, rendered, current, freshId);
  }

  /** The delete handler itself takes no role: a delete intent from an
      editor still removes the slide. Only the disabled button stops it. */
  lemma DeleteHandlerIgnoresRole(s: Slide, t: Slide, rendered: seq<Slide>, freshId: Id)
    requires s.id != t.id
    ensures Dispatch(DeleteSlideIntent(s.id), Some(Editor), rendered, [s, t], freshId) == [t]
    ensures Dispatch(AddSlideIntent(Above, s.id), Some(Editor), rendered, [s, t], freshId) == [s, t]
  {
    assert KeepOthers([s, t], s.id) == KeepOthers([t], s.id);
  }
}
