/** The join-time logic of src/pages/CollabEditor.tsx: reading and decoding
    the invite token, bootstrapping the first slide, the check-then-set
    ownership claim, and the presence record a connection publishes. */
module CollabEditor {
  import opened Common
  import opened Model
  import Strings
  import Base64
  import Color
  import SlideContainer

  // ---------------------------------------------------------------------
  // Invite token
  // ---------------------------------------------------------------------

  /** `searchParams.get("permissibleSlides") ?? ""`. */
  function TokenParam(param: Option<string>): string {
    param.GetOr("")
  }

  /** The string handed to the editor content: "all" and "" pass through,
      anything else goes through `atob`, whose exception nobody catches
      (`None`). */
  function DecodeToken(token: string): (r: Option<string>)
    ensures token == "all" || token == "" ==> r == Some(token)
    ensures r.Some? && token != "all" && token != "" ==> Base64.IsLatin1(r.value)
  {
    if token != "all" && token != "" then Base64.Atob(token) else Some(token)
  }

  /** The `permissibleSlides` value published to presence: "all" and ""
      unchanged, anything else trimmed and split on commas. */
  function PublishedGrant(slideIds: string): (g: Grant)
    ensures g == All <==> slideIds == "all"
    ensures g == EmptyStr <==> slideIds == ""
    ensures g.Ids? ==> |g.ids| >= 1 && Strings.Join(g.ids, ',') == Strings.Trim(slideIds)
    ensures g.Ids? ==> forall i :: 0 <= i < |g.ids| ==> ',' !in g.ids[i]
  {
    if slideIds == "all" then All
    else if slideIds == "" then EmptyStr
    else
      var t := Strings.Trim(slideIds);
      Strings.JoinSplit(t, ',');
      Ids(Strings.Split(t, ','))
  }

  /** The grant a joining connection ends up publishing for a raw query
      parameter; `None` when the page throws while decoding. */
  function JoinGrant(param: Option<string>): (g: Option<Grant>)
    ensures g.None? <==> DecodeToken(TokenParam(param)).None?
    ensures param.None? ==> g == Some(EmptyStr)
    ensures param == Some("all") ==> g == Some(All)
  {
    match DecodeToken(TokenParam(param))
    case None => None
    case Some(s) => Some(PublishedGrant(s))
  }

  /** A link without a token publishes "", which locks every slide. */
  lemma MissingTokenLocksAll()
    ensures JoinGrant(None) == Some(EmptyStr)
  {
  }

  // ---------------------------------------------------------------------
  // Bootstrap slide
  // ---------------------------------------------------------------------

  /** The bootstrap effect: when the rendered list is missing or empty and
      the fresh snapshot's list is still empty, write one empty slide; a
      non-empty fresh list is never touched. */
  function Bootstrap(rendered: Option<seq<Slide>>, current: seq<Slide>, freshId: Id): (r: seq<Slide>)
    ensures |current| >= 1 ==> r == current
    ensures rendered.Some? && |rendered.value| >= 1 ==> r == current
    ensures (rendered.None? || |rendered.value| == 0) && |current| == 0 ==> r == [SlideContainer.EmptySlide(freshId)]
  {
    if rendered.Some? && |rendered.value| > 0 then current
    else if |current| == 0 then [SlideContainer.EmptySlide(freshId)]
    else current
  }

  /** Once a bootstrap has run on an empty render, the list is non-empty
      and a later bootstrap, with any render, leaves it alone. */
  lemma BootstrapIdempotent(rendered: Option<seq<Slide>>, current: seq<Slide>, freshId: Id,
                            rendered2: Option<seq<Slide>>, freshId2: Id)
    requires rendered.None? || |rendered.value| == 0
    ensures |Bootstrap(rendered, current, freshId)| >= 1
    ensures var once := Bootstrap(rendered, current, freshId);
            Bootstrap(rendered2, once, freshId2) == once
  {
  }

  // ---------------------------------------------------------------------
  // Ownership claim
  // ---------------------------------------------------------------------

  /** The render-time guard `!ownerId && self?.connectionId !== undefined`;
      a connection id of 0 is falsy in JavaScript. */
  predicate ClaimAttempted(rendered: Option<ConnId>, self: Option<ConnId>) {
    (rendered.None? || rendered == Some(0)) && self.Some?
  }

  /** The stored owner after one claim attempt: it writes the caller's
      connection id only if the fresh snapshot has no owner. */
  function ClaimOwnership(rendered: Option<ConnId>, self: Option<ConnId>, stored: Option<ConnId>): (r: Option<ConnId>)
    ensures stored.Some? ==> r == stored
    ensures stored.None? && ClaimAttempted(rendered, self) ==> r == self
    ensures !ClaimAttempted(rendered, self) ==> r == stored
  {
    if ClaimAttempted(rendered, self) && stored.None? then Some(self.value) else stored
  }

  /** One connection's claim: what it had rendered and who it is. */
  datatype Claim = Claim(rendered: Option<ConnId>, self: Option<ConnId>)

  /** Claims applied one after another to the stored owner. */
  function ApplyClaims(stored: Option<ConnId>, claims: seq<Claim>): Option<ConnId>
    decreases |claims|
  {
    if |claims| == 0 then stored
    else ApplyClaims(ClaimOwnership(claims[0].rendered, claims[0].self, stored), claims[1..])
  }

  /** Once an owner is stored, no sequence of claims replaces it. */
  lemma {:induction false} OwnerNeverOverwritten(stored: Option<ConnId>, claims: seq<Claim>)
    requires stored.Some?
    ensures ApplyClaims(stored, claims) == stored
    decreases |claims|
  {
    if |claims| > 0 {
      OwnerNeverOverwritten(stored, claims[1..]);
    }
  }

  /** The first attempted claim wins, whatever comes after it. */
  lemma FirstClaimWins(first: Claim, later: seq<Claim>)
    requires ClaimAttempted(first.rendered, first.self)
    ensures ApplyClaims(None, [first] + later) == first.self
  {
    assert ([first] + later)[1..] == later;
    OwnerNeverOverwritten(first.self, later);
  }

  /** The role a connection publishes: owner exactly when the stored owner
      is its own connection id. */
  function RoleOf(ownerId: ConnId, self: Option<ConnId>): (role: Role)
    ensures role == Owner <==> self == Some(ownerId)
  {
    if self.Some? && ownerId == self.value then Owner else Editor
  }

  /** Two connections that both saw no owner claim one after the other:
      the first becomes owner and the second an editor. */
  lemma RaceHasOneOwner(a: ConnId, b: ConnId)
    requires a != b
    ensures var owner := ApplyClaims(None, [Claim(None, Some(a)), Claim(None, Some(b))]);
            && owner == Some(a)
            && RoleOf(owner.value, Some(a)) == Owner
            && RoleOf(owner.value, Some(b)) == Editor
  {
    FirstClaimWins(Claim(None, Some(a)), [Claim(None, Some(b))]);
  }

  // ---------------------------------------------------------------------
  // Presence publication
  // ---------------------------------------------------------------------

  /** The fields a connection publishes once it knows its name and owner. */
  datatype Published = Published(name: string, role: Role, grant: Grant, color: string)

  /** The publish effect: nothing while the user name is empty or the owner
      is unknown (`self?.connectionId === null` never holds, so a missing
      `self` does not stop it and yields the editor role). */
  function Publish(userName: string, self: Option<ConnId>, ownerId: Option<ConnId>, slideIds: string): (r: Option<Published>)
    ensures r.None? <==> userName == "" || ownerId.None?
    ensures r.Some? ==> r.value.name == userName && r.value.color == Color.GetColor(userName)
    ensures r.Some? ==> r.value.color in Color.Palette
    ensures r.Some? ==> (r.value.role == Owner <==> self.Some? && self == ownerId)
    ensures r.Some? ==> r.value.grant == PublishedGrant(slideIds)
  {
    if userName == "" || ownerId.None? then None
    else Some(Published(userName, RoleOf(ownerId.value, self), PublishedGrant(slideIds), Color.GetColor(userName)))
  }

  /** `updateMyPresence(...)`: the published fields overwrite, the cursor
      fields stay. */
  function ApplyPublished(me: Presence, u: Published): (r: Presence)
    ensures r.cursor == me.cursor && r.activeSlideId == me.activeSlideId
    ensures r.role == Some(u.role) && r.grant == Some(u.grant)
    ensures r.name == Some(u.name) && r.color == Some(u.color)
  {
    me.(name := Some(u.name), role := Some(u.role), grant := Some(u.grant), color := Some(u.color))
  }

  /** The owner's grant comes from the token like anyone else's: an owner
      who opens a link with an empty token publishes "". */
  lemma OwnerGrantFollowsToken(userName: string, self: ConnId)
    requires userName != ""
    ensures var p := Publish(userName, Some(self), Some(self), "");
            p.Some? && p.value.role == Owner && p.value.grant == EmptyStr
  {
  }

  /** After the claims, the first claimer is the one connection that
      publishes the owner role: any two connections publishing owner are
      the same connection. */
  lemma OneOwnerPublishes(first: Claim, later: seq<Claim>, userName: string,
                          c1: ConnId, c2: ConnId, slideIds: string)
    requires ClaimAttempted(first.rendered, first.self) && userName != ""
    ensures var owner := ApplyClaims(None, [first] + later);
            var p1 := Publish(userName, Some(c1), owner, slideIds);
            var p2 := Publish(userName, Some(c2), owner, slideIds);
            && p1.Some? && p2.Some?
            && (p1.value.role == Owner <==> first.self == Some(c1))
            && (p1.value.role == Owner && p2.value.role == Owner ==> c1 == c2)
  {
    FirstClaimWins(first, later);
  }

  /** What a joining connection ends up with in presence: the grant the
      invite token decodes to, its own name, and the colour derived from
      that name; the cursor fields are untouched. */
  lemma JoinedPresence(param: Option<string>, userName: string, self: Option<ConnId>,
                       ownerId: ConnId, me: Presence)
    requires userName != "" && DecodeToken(TokenParam(param)).Some?
    ensures var p := Publish(userName, self, Some(ownerId), DecodeToken(TokenParam(param)).value);
            && p.Some?
            && var pres := ApplyPublished(me, p.value);
               && pres.grant == JoinGrant(param)
               && pres.name == Some(userName)
               && pres.color == Some(Color.GetColor(userName))
               && pres.cursor == me.cursor && pres.activeSlideId == me.activeSlideId
  {
  }
}
