/** The slide grant end to end: the invite dialog encodes it into a link,
    the landing page forwards the link's token, and the deck page decodes
    it into the presence grant that decides which slides are writable.
    The components are InviteDialog.tsx, Welcome.tsx, CollabEditor.tsx
    and Slide.tsx under src/. */
module GrantCodec {
  import opened Common
  import opened Model
  import Strings
  import Base64
  import InviteDialog
  import Welcome
  import CollabEditor
  import SlideView

  /** A character `Number.prototype.toString(36)` produces. */
  predicate IsBase36Char(c: char) {
    ('0' <= c <= '9') || ('a' <= c <= 'z')
  }

  /** A slide id as the editor generates them: a non-empty base-36 string. */
  predicate IsGeneratedId(id: Id) {
    |id| >= 1 && forall k :: 0 <= k < |id| ==> IsBase36Char(id[k])
  }

  /** Joined generated ids consist of base-36 characters and commas and are
      at least as long as the first id. */
  lemma {:induction false} JoinOfGeneratedIds(ids: seq<Id>)
    requires |ids| >= 1
    requires forall i :: 0 <= i < |ids| ==> IsGeneratedId(ids[i])
    ensures var j := Strings.Join(ids, ',');
            && |j| >= 1
            && forall k :: 0 <= k < |j| ==> IsBase36Char(j[k]) || j[k] == ','
    decreases |ids|
  {
    var j := Strings.Join(ids, ',');
    if |ids| > 1 {
      JoinOfGeneratedIds(ids[1..]);
      var tail := Strings.Join(ids[1..], ',');
      assert j == ids[0] + [','] + tail;
      forall k | 0 <= k < |j|
        ensures IsBase36Char(j[k]) || j[k] == ','
      {
        if k < |ids[0]| {
          assert j[k] == ids[0][k];
        } else if k > |ids[0]| {
          assert j[k] == tail[k - |ids[0]| - 1];
        }
      }
    }
  }

  /** The joined ids survive the trip through `trim` and `split`, and
      `btoa` accepts them. */
  lemma JoinedIdsSplitBack(ids: seq<Id>)
    requires |ids| >= 1
    requires forall i :: 0 <= i < |ids| ==> IsGeneratedId(ids[i])
    ensures var j := Strings.Join(ids, ',');
            && j != "" && Base64.IsLatin1(j)
            && Strings.Split(Strings.Trim(j), ',') == ids
  {
    forall i | 0 <= i < |ids|
      ensures ',' !in ids[i]
    {
      assert IsGeneratedId(ids[i]);
    }
    Strings.SplitJoin(ids, ',');
    JoinedIdsNeedNoTrim(ids);
  }

  /** The join of generated ids is non-empty Latin-1 text that `trim`
      leaves alone. */
  lemma JoinedIdsNeedNoTrim(ids: seq<Id>)
    requires |ids| >= 1
    requires forall i :: 0 <= i < |ids| ==> IsGeneratedId(ids[i])
    ensures var j := Strings.Join(ids, ',');
            && j != "" && Base64.IsLatin1(j) && Strings.Trim(j) == j
  {
    var j := Strings.Join(ids, ',');
    JoinOfGeneratedIds(ids);
    IdCharIsPlain(j[0]);
    IdCharIsPlain(j[|j| - 1]);
    Strings.TrimKeeps(j);
  }

  /** A base-36 digit or a comma is neither whitespace nor above U+00FF. */
  lemma IdCharIsPlain(c: char)
    requires IsBase36Char(c) || c == ','
    ensures !Strings.IsJsSpace(c) && c as int < 256
  {
  }

  /** The deck page decodes any non-empty `btoa` output back to its input. */
  lemma DecodeTokenOfBtoa(j: string)
    requires Base64.IsLatin1(j) && j != ""
    ensures Base64.Btoa(j).Some? && CollabEditor.DecodeToken(Base64.Btoa(j).value) == Some(j)
  {
    Base64.AtobBtoa(j);
    var token := Base64.Btoa(j).value;
    assert |token| % 4 == 0 && |token| > 0;
  }

  /** A subset link decodes to exactly the ids that were joined into it,
      so an editor opening it may write exactly those slides. The join must
      not be the text "all", which would read as the full-deck token. */
  lemma SubsetTokenRoundTrip(ids: seq<Id>)
    requires |ids| >= 1
    requires forall i :: 0 <= i < |ids| ==> IsGeneratedId(ids[i])
    requires Strings.Join(ids, ',') != "all"
    ensures var token := Base64.Btoa(Strings.Join(ids, ','));
            && token.Some?
            && CollabEditor.JoinGrant(Some(token.value)) == Some(Ids(ids))
            && forall slideId :: !SlideView.IsReadonly(Some(Ids(ids)), slideId) <==> slideId in ids
  {
    var j := Strings.Join(ids, ',');
    JoinedIdsSplitBack(ids);
    assert CollabEditor.PublishedGrant(j) == Ids(ids);
    DecodeTokenOfBtoa(j);
  }

  /** A connection that joins with a subset link publishes a presence
      whose grant makes exactly the shared slides writable; the role it
      publishes comes from the owner record alone. */
  lemma SubsetJoinerPresence(ids: seq<Id>, userName: string, self: Option<ConnId>,
                             ownerId: ConnId, me: Presence)
    requires |ids| >= 1
    requires forall i :: 0 <= i < |ids| ==> IsGeneratedId(ids[i])
    requires Strings.Join(ids, ',') != "all"
    requires userName != ""
    ensures Base64.Btoa(Strings.Join(ids, ',')).Some?
    ensures CollabEditor.DecodeToken(Base64.Btoa(Strings.Join(ids, ',')).value).Some?
    ensures var token := Base64.Btoa(Strings.Join(ids, ',')).value;
            var p := CollabEditor.Publish(userName, self, Some(ownerId), CollabEditor.DecodeToken(token).value);
            && p.Some?
            && (p.value.role == Owner <==> self == Some(ownerId))
            && var pres := CollabEditor.ApplyPublished(me, p.value);
               forall slideId :: !SlideView.IsReadonly(pres.grant, slideId) <==> slideId in ids
  {
    SubsetTokenRoundTrip(ids);
    var token := Base64.Btoa(Strings.Join(ids, ',')).value;
    CollabEditor.JoinedPresence(Some(token), userName, self, ownerId, me);
  }

  /** `btoa` turns `NullDecoding` into "null". */
  lemma BtoaOfNullDecoding()
    ensures Base64.Btoa(NullDecoding) == Some("null")
  {
    var s := NullDecoding;
    assert Base64.IsLatin1(s);
    EncodeNullDecoding();
    assert Base64.Padding(3) == "";
  }

  lemma EncodeNullDecoding()
    ensures Base64.EncodeBody(NullDecoding) == "null"
  {
    var s := NullDecoding;
    assert s[0] as int == 158 && s[1] as int == 233 && s[2] as int == 101;
    assert s[3..] == [];
    SextetsOfNull();
  }

  lemma SextetsOfNull()
    ensures Base64.EncodeTriple(158, 233, 101) == "null"
  {
    assert 158 / 4 == 39 && (158 % 4) * 16 + 233 / 16 == 46;
    assert (233 % 16) * 4 + 101 / 64 == 37 && 101 % 64 == 37;
    assert Base64.Sextet(39) == 'n';
    assert Base64.Sextet(46) == 'u';
    assert Base64.Sextet(37) == 'l';
    assert Base64.EncodeTriple(158, 233, 101) == [Base64.Sextet(39), Base64.Sextet(46), Base64.Sextet(37), Base64.Sextet(37)];
  }

  /** What `atob("null")` yields: three Latin-1 characters. */
  const NullDecoding: string := ['\U{9E}', '\U{E9}', 'e']

  /** A full-deck link, once the Invite button is enabled, grants every
      slide: the token is `btoa("all")`, which decodes back to "all". */
  lemma FullInviteGrantsAll(st: InviteDialog.DialogState, origin: string, roomId: string, slideIds: seq<Id>)
    requires InviteDialog.SharesAll(st)
    requires !st.hasError
    ensures InviteDialog.PressInvite(st, origin, roomId, slideIds) ==
              InviteDialog.Copied(InviteDialog.InviteUrl(origin, roomId, "YWxs"), InviteDialog.Initial)
    ensures CollabEditor.JoinGrant(Some("YWxs")) == Some(All)
    ensures forall slideId :: !SlideView.IsReadonly(Some(All), slideId)
  {
    InviteDialog.BtoaAll();
    Base64.AtobBtoa("all");
  }

  /** A subset submit that selects nothing, for instance because no entry
      is a number, copies a link with an empty token, and that token locks
      every slide. */
  lemma EmptySelectionLocksAll(st: InviteDialog.DialogState, origin: string, roomId: string, slideIds: seq<Id>)
    requires !st.hasError && !InviteDialog.SharesAll(st)
    requires InviteDialog.SharedIds(st, slideIds) == []
    ensures InviteDialog.PressInvite(st, origin, roomId, slideIds) ==
              InviteDialog.Copied(InviteDialog.InviteUrl(origin, roomId, ""), InviteDialog.Initial)
    ensures CollabEditor.JoinGrant(Some("")) == Some(EmptyStr)
    ensures forall slideId :: SlideView.IsReadonly(Some(EmptyStr), slideId)
  {
    assert Strings.Join([], ',') == "";
    assert Base64.Btoa("") == Some("");
  }

  /** Closing the dialog after a rejected "0" re-enables Invite with the
      text kept, and the link it then copies locks every slide. */
  lemma ClosedErrorLinkLocksAll(st: InviteDialog.DialogState, origin: string, roomId: string, slideIds: seq<Id>)
    requires st.mode == InviteDialog.Multiple
    ensures var closed := InviteDialog.Close(InviteDialog.InputChange(st, "0", |slideIds|));
            && InviteDialog.PressInvite(closed, origin, roomId, slideIds) ==
                 InviteDialog.Copied(InviteDialog.InviteUrl(origin, roomId, ""), InviteDialog.Initial)
            && CollabEditor.JoinGrant(Some("")) == Some(EmptyStr)
            && forall slideId :: SlideView.IsReadonly(CollabEditor.JoinGrant(Some("")), slideId)
  {
    InviteDialog.CloseThenInviteSharesNothing(st, origin, roomId, slideIds);
  }

  /** The whole path of a subset invite: the dialog copies a link, the
      landing page forwards its token to the deck page, and the deck page
      publishes the selected ids as the grant. */
  lemma SubsetInviteEndToEnd(st: InviteDialog.DialogState, origin: string, roomId: string, slideIds: seq<Id>,
                             name: string, randomId: string)
    requires !st.hasError && !InviteDialog.SharesAll(st)
    requires forall i :: 0 <= i < |slideIds| ==> IsGeneratedId(slideIds[i])
    requires roomId != "" && '?' !in roomId
    requires var sel := InviteDialog.SharedIds(st, slideIds);
             |sel| >= 1 && Strings.Join(sel, ',') != "all"
    ensures var sel := InviteDialog.SharedIds(st, slideIds);
            var out := InviteDialog.PressInvite(st, origin, roomId, slideIds);
            && out.Copied?
            && var token := InviteDialog.InviteToken(st, slideIds).value;
               var landing := Welcome.OnRouteParam(Welcome.NameChange(Welcome.Initial, name), Some(roomId));
               var link := Welcome.ParseDeckPath(Welcome.Submit(landing, Some(token), randomId).path);
               && link == Some(Welcome.DeckLink(roomId, Some(token)))
               && CollabEditor.JoinGrant(link.value.token) == Some(Ids(sel))
  {
    var sel := InviteDialog.SharedIds(st, slideIds);
    forall i | 0 <= i < |sel|
      ensures IsGeneratedId(sel[i])
    {
      assert sel[i] in sel;
    }
    SubsetTokenRoundTrip(sel);
    var token := InviteDialog.InviteToken(st, slideIds).value;
    Welcome.RouteThenSubmitJoins(name, roomId, Some(token), randomId);
  }

  /** Reaching the landing page without a token forwards "null", which
      decodes to a one-id grant no generated slide id matches: every real
      slide is read-only. */
  lemma MissingTokenThroughWelcome(name: string, roomId: string, randomId: string)
    requires roomId != "" && '?' !in roomId
    ensures var landing := Welcome.OnRouteParam(Welcome.NameChange(Welcome.Initial, name), Some(roomId));
            var link := Welcome.ParseDeckPath(Welcome.Submit(landing, None, randomId).path);
            && link == Some(Welcome.DeckLink(roomId, Some("null")))
            && CollabEditor.JoinGrant(link.value.token) == Some(Ids([NullDecoding]))
            && forall slideId :: IsGeneratedId(slideId) ==> SlideView.IsReadonly(Some(Ids([NullDecoding])), slideId)
  {
    Welcome.RouteThenSubmitJoins(name, roomId, None, randomId);
    NullTokenGrant();
    NullGrantLocksGenerated();
  }

  /** The deck page decodes the token "null" to the one-id grant. */
  lemma NullTokenGrant()
    ensures CollabEditor.JoinGrant(Some("null")) == Some(Ids([NullDecoding]))
  {
    BtoaOfNullDecoding();
    Base64.AtobBtoa(NullDecoding);
    assert CollabEditor.DecodeToken("null") == Some(NullDecoding);
    Strings.TrimKeeps(NullDecoding);
    Strings.SplitNoSep(NullDecoding, ',');
  }

  /** No generated slide id is writable under the one-id grant. */
  lemma NullGrantLocksGenerated()
    ensures forall slideId :: IsGeneratedId(slideId) ==> SlideView.IsReadonly(Some(Ids([NullDecoding])), slideId)
  {
    forall slideId | IsGeneratedId(slideId)
      ensures SlideView.IsReadonly(Some(Ids([NullDecoding])), slideId)
    {
      assert slideId != NullDecoding by {
        assert IsBase36Char(slideId[0]);
      }
    }
  }
}
