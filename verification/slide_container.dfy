/** The slide-list handlers of src/components/SlideContainer.tsx. Both read
    the fresh storage snapshot (`current`) and write a whole new list; adding
    also consults the list as it was last rendered (`rendered`) to locate
    the reference slide. Fresh slide ids are parameters. */
module SlideContainer {
  import opened Common
  import opened Model

  datatype Placement = Above | Below

  /** `slides.findIndex(({ id }) => id === slideId)`. */
  function FindIndex(slides: seq<Slide>, id: Id): (t: int)
    ensures -1 <= t < |slides|
    ensures t >= 0 ==> slides[t].id == id && forall k :: 0 <= k < t ==> slides[k].id != id
    ensures t == -1 <==> forall k :: 0 <= k < |slides| ==> slides[k].id != id
    decreases |slides|
  {
    if |slides| == 0 then -1
    else if slides[0].id == id then 0
    else
      var t := FindIndex(slides[1..], id);
      if t == -1 then -1 else t + 1
  }

  /** A slide with no widgets. */
  function EmptySlide(id: Id): Slide {
    Slide(id, [])
  }

  /** Where the new slide lands in a fresh list of length `n`, given the
      reference's index `t` in the rendered list: "above" slices at `t`,
      "below" at `t + 1`, with JavaScript's negative-index rule. */
  function InsertionIndex(flag: Placement, t: int, n: nat): (k: nat)
    ensures k <= n
    ensures 0 <= t && flag == Above && t <= n ==> k == t
    ensures 0 <= t && flag == Below && t < n ==> k == t + 1
    ensures 0 <= t && (if flag == Above then t else t + 1) > n ==> k == n
    ensures t == -1 && flag == Above ==> k == (if n == 0 then 0 else n - 1)
    ensures t == -1 && flag == Below ==> k == 0
  {
    match flag
    case Above => RelIndex(t, n)
    case Below => RelIndex(t + 1, n)
  }

  /** `handleAddSlide`: a no-op unless the caller's presence role is owner;
      otherwise the fresh list with one empty slide inserted at
      `InsertionIndex`, everything else kept in order. */
  function AddSlide(role: Option<Role>, flag: Placement, refId: Id,
                    rendered: seq<Slide>, current: seq<Slide>, freshId: Id): (r: seq<Slide>)
    ensures role != Some(Owner) ==> r == current
    ensures role == Some(Owner) ==>
      var k := InsertionIndex(flag, FindIndex(rendered, refId), |current|);
      && |r| == |current| + 1
      && r[k] == EmptySlide(freshId)
      && r[..k] == current[..k]
      && r[k + 1..] == current[k..]
  {
    if role != Some(Owner) then current
    else
      var t := FindIndex(rendered, refId);
      var cut := if flag == Above then t else t + 1;
      var before := Slice(current, 0, cut);
      var after := SliceFrom(current, cut);
      SliceSplits(current, cut);
      var r := before + [EmptySlide(freshId)] + after;
      assert r[..|before|] == before;
      assert r[|before| + 1..] == after;
      r
  }

  /** Removing the inserted slide gives back the fresh list: adding only
      inserts. */
  lemma AddSlideOnlyInserts(flag: Placement, refId: Id, rendered: seq<Slide>, current: seq<Slide>, freshId: Id)
    ensures var r := AddSlide(Some(Owner), flag, refId, rendered, current, freshId);
            var k := InsertionIndex(flag, FindIndex(rendered, refId), |current|);
            r[..k] + r[k + 1..] == current
  {
    var r := AddSlide(Some(Owner), flag, refId, rendered, current, freshId);
    var k := InsertionIndex(flag, FindIndex(rendered, refId), |current|);
    assert current[..k] + current[k..] == current;
  }

  /** With an up-to-date render, "above" puts the new slide at the
      reference's index and "below" right after it. */
  lemma AddSlideNextToReference(flag: Placement, refId: Id, slides: seq<Slide>, freshId: Id)
    requires exists k :: 0 <= k < |slides| && slides[k].id == refId
    ensures var r := AddSlide(Some(Owner), flag, refId, slides, slides, freshId);
            var t := FindIndex(slides, refId);
            && 0 <= t < |slides| && slides[t].id == refId
            && (flag == Above ==> r[t] == EmptySlide(freshId) && r[t + 1] == slides[t])
            && (flag == Below ==> r[t] == slides[t] && r[t + 1] == EmptySlide(freshId))
  {
    var r := AddSlide(Some(Owner), flag, refId, slides, slides, freshId);
    var t := FindIndex(slides, refId);
    var k := InsertionIndex(flag, t, |slides|);
    if flag == Above {
      assert r[t + 1] == r[k + 1..][0] == slides[k..][0];
    } else {
      assert r[t] == r[..k][t] == slides[..k][t];
    }
  }

  /** With the reference missing from the render, "below" inserts at the
      front and "above" just before the last slide (`slice(0, -1)`); an
      empty list becomes just the new slide. */
  lemma AddSlideMissingReference(flag: Placement, refId: Id, rendered: seq<Slide>, current: seq<Slide>, freshId: Id)
    requires forall k :: 0 <= k < |rendered| ==> rendered[k].id != refId
    ensures var r := AddSlide(Some(Owner), flag, refId, rendered, current, freshId);
            && (|current| == 0 ==> r == [EmptySlide(freshId)])
            && (flag == Below ==> r == [EmptySlide(freshId)] + current)
            && (flag == Above && |current| > 0 ==>
                  r == current[..|current| - 1] + [EmptySlide(freshId)] + [current[|current| - 1]])
  {
    var r := AddSlide(Some(Owner), flag, refId, rendered, current, freshId);
    var n := |current|;
    if flag == Below {
      assert r == r[..0] + [r[0]] + r[1..];
    } else if n > 0 {
      assert r[n..] == current[n - 1..] == [current[n - 1]];
      assert r == r[..n - 1] + [r[n - 1]] + r[n..];
    }
  }

  /** The insertion index comes from the rendered list, not the fresh one:
      if a remote delete removed the slide before the reference, "above"
      lands below it. */
  lemma StaleIndexMisplaces(a: Slide, b: Slide, freshId: Id)
    requires a.id != b.id
    ensures AddSlide(Some(Owner), Above, b.id, [a, b], [b], freshId) == [b, EmptySlide(freshId)]
  {
    var r := AddSlide(Some(Owner), Above, b.id, [a, b], [b], freshId);
    assert FindIndex([a, b], b.id) == 1;
    assert r == r[..1] + [r[1]] + r[2..];
  }

  /** `currentSlides.filter(({ id }) => id !== slideId)`. */
  function KeepOthers(slides: seq<Slide>, id: Id): (r: seq<Slide>)
    ensures |r| <= |slides|
    ensures forall s :: s in r <==> s in slides && s.id != id
    ensures (forall k :: 0 <= k < |slides| ==> slides[k].id != id) ==> r == slides
    decreases |slides|
  {
    if |slides| == 0 then []
    else if slides[0].id == id then KeepOthers(slides[1..], id)
    else [slides[0]] + KeepOthers(slides[1..], id)
  }

  /** Filtering distributes over concatenation: the survivors keep their
      relative order. */
  lemma {:induction false} KeepOthersConcat(a: seq<Slide>, b: seq<Slide>, id: Id)
    ensures KeepOthers(a + b, id) == KeepOthers(a, id) + KeepOthers(b, id)
    decreases |a|
  {
    if |a| > 0 {
      assert (a + b)[1..] == a[1..] + b;
      KeepOthersConcat(a[1..], b, id);
    } else {
      assert a + b == b;
    }
  }

  /** `handleDeleteSlide`: removes every slide with the id and, if that
      empties the list, refills it with one fresh empty slide. The handler
      checks no role. */
  function DeleteSlide(current: seq<Slide>, id: Id, freshId: Id): (r: seq<Slide>)
    ensures |r| >= 1
    ensures KeepOthers(current, id) != [] ==> r == KeepOthers(current, id)
    ensures KeepOthers(current, id) == [] ==> r == [EmptySlide(freshId)]
    ensures forall s :: s in r ==> (s in current && s.id != id) || s == EmptySlide(freshId)
  {
    var kept := KeepOthers(current, id);
    if |kept| == 0 then [EmptySlide(freshId)] else kept
  }

  /** Deleting an id no slide carries leaves a non-empty list unchanged. */
  lemma DeleteAbsentSlide(current: seq<Slide>, id: Id, freshId: Id)
    requires |current| >= 1
    requires forall k :: 0 <= k < |current| ==> current[k].id != id
    ensures DeleteSlide(current, id, freshId) == current
  {
  }

  /** Deleting the only slide leaves exactly one fresh, empty slide. */
  lemma DeleteLastSlide(s: Slide, freshId: Id)
    ensures DeleteSlide([s], s.id, freshId) == [EmptySlide(freshId)]
  {
    assert KeepOthers([s], s.id) == KeepOthers([s][1..], s.id);
  }

  /** Both structural edits keep the deck non-empty. */
  lemma SlideEditsKeepDeckNonEmpty(role: Option<Role>, flag: Placement, refId: Id,
                                   rendered: seq<Slide>, current: seq<Slide>, freshId: Id, id: Id)
    requires |current| >= 1
    ensures |AddSlide(role, flag, refId, rendered, current, freshId)| >= 1
    ensures |DeleteSlide(current, id, freshId)| >= 1
  {
  }
}
