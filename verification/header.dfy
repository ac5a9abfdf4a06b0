/** The header of src/components/Header.tsx: a user's initials, the
    connected-user count and whether the invite button is enabled. */
module Header {
  import opened Common
  import opened Model
  import Strings
  import Permission

  /** `part[0]` joined as text: the first character, or nothing for an
      empty part (`undefined` joins as the empty string). */
  function FirstChar(part: string): (r: string)
    ensures |part| == 0 ==> r == ""
    ensures |part| > 0 ==> r == [part[0]]
  {
    if |part| == 0 then "" else [part[0]]
  }

  /** The initials of `User`: the name defaults to "Guest" when absent, is
      split on single spaces, and the first characters of the first two
      parts are joined. */
  function Initials(name: Option<string>): (r: string)
    ensures |r| <= 2
    ensures var parts := Strings.Split(name.GetOr("Guest"), ' ');
            r == FirstChar(parts[0]) + (if |parts| >= 2 then FirstChar(parts[1]) else "")
  {
    var parts := Strings.Split(name.GetOr("Guest"), ' ');
    var firstTwo := Slice(parts, 0, 2);
    assert firstTwo == parts[..if |parts| >= 2 then 2 else |parts|];
    if |firstTwo| == 1 then FirstChar(firstTwo[0])
    else FirstChar(firstTwo[0]) + FirstChar(firstTwo[1])
  }

  /** A name made of words without spaces, joined by single spaces, has
      the first letters of its first two words as initials. */
  lemma InitialsOfWords(words: seq<string>)
    requires |words| >= 1
    requires forall i :: 0 <= i < |words| ==> |words[i]| >= 1 && ' ' !in words[i]
    ensures Initials(Some(Strings.Join(words, ' '))) ==
              [words[0][0]] + (if |words| >= 2 then [words[1][0]] else [])
  {
    Strings.SplitJoin(words, ' ');
  }

  /** A missing name shows "G"; an empty one shows nothing. */
  lemma DefaultInitials()
    ensures Initials(None) == "G"
    ensures Initials(Some("")) == ""
  {
    Strings.SplitNoSep("Guest", ' ');
    Strings.SplitNoSep("", ' ');
  }

  /** A double space yields an empty second part, which adds nothing: "Ada
      Lovelace" with two spaces shows only "A". */
  lemma DoubleSpaceDropsSecondInitial(a: string, b: string)
    requires |a| >= 1 && ' ' !in a && ' ' !in b
    ensures Initials(Some(a + "  " + b)) == [a[0]]
  {
    assert a + "  " + b == a + [' '] + ([' '] + b);
    Strings.SplitAtFirst(a, ' ', [' '] + b);
    assert [' '] + b == [] + [' '] + b;
    Strings.SplitAtFirst([], ' ', b);
  }

  /** `others.length + 1`: the other connections and this one. */
  function ConnectedCount(others: seq<Other>): nat
  {
    |others| + 1
  }

  /** `canInvite`: the published presence role is owner. A connection that
      has not published its role yet cannot invite. */
  predicate CanInvite(role: Option<Role>)
  {
    role == Some(Owner)
  }

  /** The header asks the published presence role, not the URL: a
      connection without URL parameters counts as owner for the permission
      hook, but the header still disables inviting until presence says
      owner. */
  lemma InviteFollowsPresenceNotUrl()
    ensures Permission.FromParams(None, None).canInvite
    ensures !CanInvite(Some(Editor)) && !CanInvite(None)
  {
  }
}
