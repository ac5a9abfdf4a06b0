/** The role-aware permission hook of src/hooks/usePermission.ts. It reads
    two URL search parameters, `role` and `slides`, and derives the role,
    the slide grant and the three permission answers from them. */
module Permission {
  import opened Common
  import opened Model
  import Strings

  /** What the hook returns; `canEditSlide` is the function below. */
  datatype Permissions = Permissions(role: string, grant: Grant, canEditDeck: bool, canInvite: bool)

  /** The hook's derivation from the `role` and `slides` parameters. The
      `role` parameter is cast, not validated, so any text is a role. */
  function FromParams(roleParam: Option<string>, slidesParam: Option<string>): (p: Permissions)
    ensures roleParam.None? ==> p.role == "owner"
    ensures roleParam.Some? ==> p.role == roleParam.value
    ensures p.grant == All <==> slidesParam.None? || slidesParam.value == ""
    ensures p.grant != EmptyStr
    ensures p.grant.Ids? ==> |p.grant.ids| >= 1 && Strings.Join(p.grant.ids, ',') == slidesParam.value
    ensures p.canEditDeck <==> p.role == "owner"
    ensures p.canInvite == p.canEditDeck
  {
    var role := roleParam.GetOr("owner");
    var grant :=
      if slidesParam.Some? && slidesParam.value != "" then Ids(Strings.Split(slidesParam.value, ','))
      else All;
    var p := Permissions(role, grant, role == "owner", role == "owner");
    if slidesParam.Some? then Strings.JoinSplit(slidesParam.value, ','); p else p
  }

  /** The slides a grant lists, as the hook's `new Set(permissibleSlides)`.
      A string is iterated by characters, so the empty string gives the
      empty set. */
  function EditableSet(grant: Grant): (s: set<Id>)
    ensures grant.Ids? ==> forall id :: id in s <==> id in grant.ids
    ensures grant.EmptyStr? ==> s == {}
  {
    match grant
    case Ids(l) => set i | 0 <= i < |l| :: l[i]
    case _ => {}
  }

  /** `canEditSlide(slideId)`. */
  function CanEditSlide(role: string, grant: Grant, slideId: Id): (ok: bool)
    ensures role == "owner" || grant == All ==> ok
    ensures role != "owner" && grant.Ids? ==> (ok <==> slideId in grant.ids)
    ensures role != "owner" && grant == EmptyStr ==> !ok
  {
    if role == "owner" || grant == All then true
    else slideId in EditableSet(grant)
  }

  /** An owner, or a holder of the "all" grant, may edit every slide id,
      including ids that do not exist yet. */
  lemma OwnerOrAllEditsEverything(role: string, grant: Grant)
    requires role == "owner" || grant == All
    ensures forall id :: CanEditSlide(role, grant, id)
  {
  }

  /** A non-owner with an empty list may edit nothing. */
  lemma EmptyListDeniesAll(role: string)
    requires role != "owner"
    ensures forall id :: !CanEditSlide(role, Ids([]), id)
  {
  }

  /** Enlarging the granted list never revokes an id. */
  lemma CanEditSlideMonotone(role: string, ids: seq<Id>, more: seq<Id>, id: Id)
    requires forall x :: x in ids ==> x in more
    requires CanEditSlide(role, Ids(ids), id)
    ensures CanEditSlide(role, Ids(more), id)
  {
  }

  /** A `slides` parameter round-trips: the granted ids are exactly the
      comma-separated entries, for any list of comma-free ids. */
  lemma SlidesParamRoundTrip(role: Option<string>, ids: seq<Id>)
    requires |ids| >= 1 && Strings.Join(ids, ',') != ""
    requires forall i :: 0 <= i < |ids| ==> ',' !in ids[i]
    ensures FromParams(role, Some(Strings.Join(ids, ','))).grant == Ids(ids)
  {
    Strings.SplitJoin(ids, ',');
  }
}
