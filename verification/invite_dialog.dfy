/** The invite dialog of src/components/InviteDialog.tsx: a small state
    machine (mode, typed slide numbers, error flag) whose submit builds the
    invite link. The token is `btoa("all")` for a full-deck invite and
    otherwise `btoa` of the chosen slide ids joined by commas. */
module InviteDialog {
  import opened Common
  import Strings
  import Base64

  type Id = string

  datatype InviteMode = Full | Multiple

  datatype DialogState = DialogState(mode: InviteMode, input: string, hasError: bool)

  /** The state the dialog opens in, and returns to after a submit. */
  const Initial := DialogState(Full, "all", false)

  // ---------------------------------------------------------------------
  // Slide numbers
  // ---------------------------------------------------------------------

  /** `parseInt` of every comma-separated entry; `None` is `NaN`. */
  function ParseNumbers(entries: seq<string>): (ns: seq<Option<int>>)
    ensures |ns| == |entries|
    ensures forall i :: 0 <= i < |entries| ==> ns[i] == Strings.ParseInt(entries[i])
  {
    seq(|entries|, i requires 0 <= i < |entries| => Strings.ParseInt(entries[i]))
  }

  /** Whether the 1-based slide number `pos` was typed. `NaN` matches nothing. */
  predicate Chosen(numbers: seq<Option<int>>, pos: int) {
    Some(pos) in numbers
  }

  /** `slideIds.filter((_, i) => indexList.has(i + 1))`, written for a
      suffix of the list that starts at 0-based position `start`. */
  function SelectFrom(ids: seq<Id>, numbers: seq<Option<int>>, start: nat): (r: seq<Id>)
    ensures |r| <= |ids|
    ensures forall k :: 0 <= k < |ids| && Chosen(numbers, start + k + 1) ==> ids[k] in r
    ensures forall x :: x in r ==> exists k :: 0 <= k < |ids| && Chosen(numbers, start + k + 1) && ids[k] == x
    decreases |ids|
  {
    if |ids| == 0 then []
    else
      var rest := SelectFrom(ids[1..], numbers, start + 1);
      assert forall k :: 1 <= k < |ids| ==> ids[k] == ids[1..][k - 1];
      if Chosen(numbers, start + 1) then [ids[0]] + rest else rest
  }

  /** The ids whose 1-based position was typed, in deck order. */
  function SelectedIds(ids: seq<Id>, numbers: seq<Option<int>>): seq<Id> {
    SelectFrom(ids, numbers, 0)
  }

  /** Selection distributes over splitting the deck, so it keeps deck order. */
  lemma {:induction false} SelectFromConcat(a: seq<Id>, b: seq<Id>, numbers: seq<Option<int>>, start: nat)
    ensures SelectFrom(a + b, numbers, start) == SelectFrom(a, numbers, start) + SelectFrom(b, numbers, start + |a|)
    decreases |a|
  {
    if |a| == 0 {
      assert a + b == b;
    } else {
      assert (a + b)[1..] == a[1..] + b;
      SelectFromConcat(a[1..], b, numbers, start + 1);
    }
  }

  /** A list without repeated ids gives a selection without repeated ids,
      however often a number is typed. */
  lemma {:induction false} SelectFromDistinct(ids: seq<Id>, numbers: seq<Option<int>>, start: nat)
    requires Distinct(ids)
    ensures Distinct(SelectFrom(ids, numbers, start))
    decreases |ids|
  {
    if |ids| > 0 {
      SelectFromDistinct(ids[1..], numbers, start + 1);
      var rest := SelectFrom(ids[1..], numbers, start + 1);
      assert forall k :: 0 <= k < |ids[1..]| ==> ids[1..][k] == ids[k + 1];
      assert ids[0] !in rest;
      if Chosen(numbers, start + 1) {
        var r := [ids[0]] + rest;
        assert SelectFrom(ids, numbers, start) == r;
        forall i, j | 0 <= i < j < |r|
          ensures r[i] != r[j]
        {
          assert r[j] == rest[j - 1] && rest[j - 1] in rest;
          if i == 0 {
            assert r[i] == ids[0];
            assert ids[0] !in rest;
            assert r[j] in rest;
          } else {
            assert rest[i - 1] != rest[j - 1];
            assert r[i] == rest[i - 1];
            assert 0 <= i - 1 < j - 1 < |rest|;
          }
        }
      }
    }
  }

  /** Typing every number of the suffix's positions shares all of it. */
  lemma {:induction false} SelectEverything(ids: seq<Id>, numbers: seq<Option<int>>, start: nat)
    requires forall p :: start < p <= start + |ids| ==> Chosen(numbers, p)
    ensures SelectFrom(ids, numbers, start) == ids
    decreases |ids|
  {
    if |ids| > 0 {
      SelectEverything(ids[1..], numbers, start + 1);
    }
  }

  /** Numbers that name none of the suffix's positions select nothing. */
  lemma {:induction false} SelectNothing(ids: seq<Id>, numbers: seq<Option<int>>, start: nat)
    requires forall p :: start < p <= start + |ids| ==> !Chosen(numbers, p)
    ensures SelectFrom(ids, numbers, start) == []
    decreases |ids|
  {
    if |ids| > 0 {
      SelectNothing(ids[1..], numbers, start + 1);
    }
  }

  // ---------------------------------------------------------------------
  // Input validation
  // ---------------------------------------------------------------------

  /** Some typed number lies outside `1..n`; `NaN` compares false both ways. */
  predicate OutOfRange(numbers: seq<Option<int>>, n: int) {
    exists i :: 0 <= i < |numbers| && numbers[i].Some? && (numbers[i].value < 1 || numbers[i].value > n)
  }

  /** `handleInputChange`: stores the text, and unless it is empty sets the
      error flag to whether a typed number is out of range. */
  function InputChange(st: DialogState, value: string, slideCount: nat): (r: DialogState)
    ensures r.input == value && r.mode == st.mode
    ensures value == "" ==> r.hasError == st.hasError
    ensures value != "" ==>
      (r.hasError <==> exists e :: e in Strings.Split(Strings.Trim(value), ',') &&
                          Strings.ParseInt(e).Some? &&
                          (Strings.ParseInt(e).value < 1 || Strings.ParseInt(e).value > slideCount))
  {
    if value == "" then st.(input := value)
    else
      var entries := Strings.Split(Strings.Trim(value), ',');
      var numbers := ParseNumbers(entries);
      var err := OutOfRange(numbers, slideCount);
      assert err ==> exists e :: e in entries && Strings.ParseInt(e).Some? &&
                       (Strings.ParseInt(e).value < 1 || Strings.ParseInt(e).value > slideCount) by {
        if err {
          var i :| 0 <= i < |numbers| && numbers[i].Some? && (numbers[i].value < 1 || numbers[i].value > slideCount);
          assert entries[i] in entries;
        }
      }
      st.(input := value, hasError := err)
  }

  /** The mode radio group: only the mode changes; the typed text and
      the error flag stay as they were. */
  function ChangeMode(st: DialogState, mode: InviteMode): (r: DialogState)
    ensures r.mode == mode && r.input == st.input && r.hasError == st.hasError
  {
    st.(mode := mode)
  }

  // ---------------------------------------------------------------------
  // Submit
  // ---------------------------------------------------------------------

  /** Whether the submit shares the whole deck. */
  predicate SharesAll(st: DialogState) {
    st.mode == Full || st.input == "" || st.input == "all"
  }

  /** The ids a subset submit shares. */
  function SharedIds(st: DialogState, slideIds: seq<Id>): seq<Id> {
    SelectedIds(slideIds, ParseNumbers(Strings.Split(st.input, ',')))
  }

  /** The token of a submit; `None` when `btoa` throws on a character
      above U+00FF. */
  function InviteToken(st: DialogState, slideIds: seq<Id>): Option<string> {
    if SharesAll(st) then Base64.Btoa("all")
    else Base64.Btoa(Strings.Join(SharedIds(st, slideIds), ','))
  }

  /** The copied link. */
  function InviteUrl(origin: string, roomId: string, token: string): string {
    origin + "/join/" + roomId + "?permissibleSlides=" + token
  }

  datatype SubmitOutcome =
    | Blocked                                // the error flag stops a subset submit
    | Threw                                  // `btoa` threw; the state is not reset
    | Copied(url: string, next: DialogState) // the link was copied

  /** `handleSubmit`. */
  function Submit(st: DialogState, origin: string, roomId: string, slideIds: seq<Id>): (r: SubmitOutcome)
    ensures st.mode == Multiple && st.hasError <==> r == Blocked
    ensures r.Copied? ==> r.next == Initial
    ensures r == Threw <==> !(st.mode == Multiple && st.hasError) && InviteToken(st, slideIds).None?
    ensures r.Copied? ==> InviteToken(st, slideIds).Some? &&
                          r.url == InviteUrl(origin, roomId, InviteToken(st, slideIds).value)
    ensures SharesAll(st) && !(st.mode == Multiple && st.hasError) ==>
              r == Copied(InviteUrl(origin, roomId, "YWxs"), Initial)
  {
    if st.mode == Multiple && st.hasError then Blocked
    else
      BtoaAll();
      match InviteToken(st, slideIds)
      case None => Threw
      case Some(token) => Copied(InviteUrl(origin, roomId, token), Initial)
  }

  /** `btoa("all")` is "YWxs". */
  lemma BtoaAll()
    ensures Base64.Btoa("all") == Some("YWxs")
  {
    var s := "all";
    assert Base64.IsLatin1(s);
    EncodeAll();
    assert Base64.Padding(3) == "";
  }

  lemma EncodeAll()
    ensures Base64.EncodeBody("all") == "YWxs"
  {
    var s := "all";
    assert s[0] as int == 97 && s[1] as int == 108 && s[2] as int == 108;
    assert s[3..] == [];
    SextetsOfAll();
  }

  lemma SextetsOfAll()
    ensures Base64.EncodeTriple(97, 108, 108) == "YWxs"
  {
    assert 97 / 4 == 24 && (97 % 4) * 16 + 108 / 16 == 22;
    assert (108 % 16) * 4 + 108 / 64 == 49 && 108 % 64 == 44;
    assert Base64.Sextet(24) == 'Y';
    assert Base64.Sextet(22) == 'W';
    assert Base64.Sextet(49) == 'x';
    assert Base64.Sextet(44) == 's';
    assert Base64.EncodeTriple(97, 108, 108) == [Base64.Sextet(24), Base64.Sextet(22), Base64.Sextet(49), Base64.Sextet(44)];
  }

  /** Text that holds no number raises no error, and a submit with it
      selects no slide at all. */
  lemma NonNumericInputSelectsNothing(st: DialogState, slideIds: seq<Id>, slideCount: nat)
    requires st.mode == Multiple
    ensures var s := InputChange(st, "x", slideCount);
            && !s.hasError
            && SharedIds(s, slideIds) == []
  {
    Strings.TrimKeeps("x");
    Strings.SplitNoSep("x", ',');
    ParseLetter();
    var numbers := ParseNumbers(["x"]);
    assert |numbers| == 1 && numbers[0] == None;
    assert numbers == [None];
    assert !OutOfRange(numbers, slideCount);
    var s := InputChange(st, "x", slideCount);
    assert Strings.Split(s.input, ',') == ["x"];
    SelectNothing(slideIds, numbers, 0);
  }

  lemma ParseLetter()
    ensures Strings.ParseInt("x") == None
  {
    var x := "x";
    assert !Strings.IsJsSpace(x[0]);
    assert Strings.TrimStart(x) == x;
    assert Strings.DigitValue(x[0], 10) == None;
    assert Strings.DigitRun(x, 10) == 0;
    assert Strings.ParseDigits(x, 10) == None;
  }

  // ---------------------------------------------------------------------
  // Buttons
  // ---------------------------------------------------------------------

  /** The Invite button is disabled, in either mode, while the error flag
      is set; an enabled press runs `handleSubmit`. */
  function PressInvite(st: DialogState, origin: string, roomId: string, slideIds: seq<Id>): (r: SubmitOutcome)
    ensures r == Blocked <==> st.hasError
    ensures r == Threw <==> !st.hasError && InviteToken(st, slideIds).None?
    ensures r.Copied? ==> r.next == Initial &&
                          r.url == InviteUrl(origin, roomId, InviteToken(st, slideIds).value)
    ensures SharesAll(st) && !st.hasError ==> r == Copied(InviteUrl(origin, roomId, "YWxs"), Initial)
  {
    if st.hasError then Blocked else Submit(st, origin, roomId, slideIds)
  }

  /** Behind the button, the submit handler's own guard never fires: every
      state the button lets through is one the handler accepts, and the
      button refuses strictly more states than the handler does. */
  lemma SubmitGuardBehindButton(st: DialogState, origin: string, roomId: string, slideIds: seq<Id>)
    ensures !st.hasError ==> PressInvite(st, origin, roomId, slideIds) == Submit(st, origin, roomId, slideIds)
    ensures Submit(st, origin, roomId, slideIds) == Blocked ==> PressInvite(st, origin, roomId, slideIds) == Blocked
    ensures st.mode == Full && st.hasError ==>
              PressInvite(st, origin, roomId, slideIds) == Blocked &&
              Submit(st, origin, roomId, slideIds).Copied?
  {
  }

  /** The close button in the header clears the error flag and nothing
      else: the dialog stays mounted, so mode and text survive. */
  function Close(st: DialogState): (r: DialogState)
    ensures !r.hasError && r.mode == st.mode && r.input == st.input
  {
    st.(hasError := false)
  }

  /** An error raised in subset mode survives a switch to the full-deck
      mode. The submit handler alone would ignore it there, but the
      disabled Invite button keeps the full-deck link from being copied. */
  lemma StaleErrorBlocksFullInvite(st: DialogState, origin: string, roomId: string, slideIds: seq<Id>)
    requires st.mode == Multiple
    ensures var typed := InputChange(st, "0", |slideIds|);
            var full := ChangeMode(typed, Full);
            && typed.hasError
            && PressInvite(typed, origin, roomId, slideIds) == Blocked
            && full.hasError
            && PressInvite(full, origin, roomId, slideIds) == Blocked
            && Submit(full, origin, roomId, slideIds) == Copied(InviteUrl(origin, roomId, "YWxs"), Initial)
  {
    ZeroIsOutOfRange(st, |slideIds|);
    var typed := InputChange(st, "0", |slideIds|);
    var full := ChangeMode(typed, Full);
    assert typed.mode == Multiple && typed.hasError;
    assert full.hasError && SharesAll(full);
  }

  /** Closing clears the flag but keeps the rejected text, so reopening and
      pressing Invite copies a link that shares no slide: "0" names no
      position, and the token is `btoa("")`, the empty string. */
  lemma CloseThenInviteSharesNothing(st: DialogState, origin: string, roomId: string, slideIds: seq<Id>)
    requires st.mode == Multiple
    ensures var typed := InputChange(st, "0", |slideIds|);
            var closed := Close(typed);
            && typed.hasError
            && SharedIds(closed, slideIds) == []
            && PressInvite(closed, origin, roomId, slideIds) == Copied(InviteUrl(origin, roomId, ""), Initial)
  {
    ZeroIsOutOfRange(st, |slideIds|);
    var closed := Close(InputChange(st, "0", |slideIds|));
    ZeroSelectsNothing(closed, slideIds);
    EmptySelectionCopiesEmptyToken(closed, origin, roomId, slideIds);
  }

  /** The text "0" names no 1-based position. */
  lemma ZeroSelectsNothing(st: DialogState, slideIds: seq<Id>)
    requires st.input == "0"
    ensures SharedIds(st, slideIds) == []
  {
    var entries := Strings.Split(st.input, ',');
    Strings.SplitNoSep("0", ',');
    assert entries == ["0"];
    var numbers := ParseNumbers(entries);
    ParseZero();
    assert |numbers| == 1 && numbers[0] == Some(0);
    OnlyZeroChosen(numbers);
    SelectNothing(slideIds, numbers, 0);
  }

  /** A lone typed 0 names no 1-based position. */
  lemma OnlyZeroChosen(numbers: seq<Option<int>>)
    requires |numbers| == 1 && numbers[0] == Some(0)
    ensures forall p :: p >= 1 ==> !Chosen(numbers, p)
  {
    assert numbers == [Some(0)];
  }

  /** An enabled subset press that selects nothing copies the link with
      the empty token, `btoa("")`. */
  lemma EmptySelectionCopiesEmptyToken(st: DialogState, origin: string, roomId: string, slideIds: seq<Id>)
    requires !st.hasError && !SharesAll(st) && SharedIds(st, slideIds) == []
    ensures PressInvite(st, origin, roomId, slideIds) == Copied(InviteUrl(origin, roomId, ""), Initial)
  {
    assert Strings.Join([], ',') == "";
    assert Base64.Btoa("") == Some("");
  }

  /** Slide number 0 is out of range for any deck. */
  lemma ZeroIsOutOfRange(st: DialogState, slideCount: nat)
    ensures InputChange(st, "0", slideCount).hasError
  {
    Strings.TrimKeeps("0");
    Strings.SplitNoSep("0", ',');
    ParseZero();
    assert ParseNumbers(["0"])[0] == Some(0);
    assert OutOfRange(ParseNumbers(["0"]), slideCount);
  }

  lemma ParseZero()
    ensures Strings.ParseInt("0") == Some(0)
  {
    Strings.ParseDecimal(0);
    assert Strings.DecimalString(0) == "0";
  }
}
