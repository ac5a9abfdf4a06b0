/** The landing page of src/pages/Welcome.tsx: choose to create or join a
    deck, type a name (and a deck id to join), and navigate to the deck
    page. A join forwards the page's own `permissibleSlides` parameter as
    text, so a missing one becomes the four letters "null". */
module Welcome {
  import opened Common

  datatype Operation = CreateDeck | JoinDeck

  datatype WelcomeState = WelcomeState(op: Operation, name: string, deckId: string)

  /** The page opens on "create" with both fields empty. */
  const Initial := WelcomeState(CreateDeck, "", "")

  /** The deck id field holds at most six characters. */
  const DeckIdMaxLength := 6

  /** The operation tabs. */
  function SelectOperation(st: WelcomeState, op: Operation): (r: WelcomeState)
    ensures r.op == op && r.name == st.name && r.deckId == st.deckId
  {
    st.(op := op)
  }

  /** The name field. */
  function NameChange(st: WelcomeState, value: string): (r: WelcomeState)
    ensures r.name == value && r.op == st.op && r.deckId == st.deckId
  {
    st.(name := value)
  }

  /** The deck id field: disabled when the route carries a deck id, and
      cut to its maximum length otherwise. */
  function DeckIdChange(st: WelcomeState, value: string, paramDeckId: Option<string>): (r: WelcomeState)
    ensures r.op == st.op && r.name == st.name
    ensures paramDeckId.Some? && paramDeckId.value != "" ==> r == st
    ensures !(paramDeckId.Some? && paramDeckId.value != "") ==>
              |r.deckId| <= DeckIdMaxLength && r.deckId <= value
    ensures !(paramDeckId.Some? && paramDeckId.value != "") && |value| <= DeckIdMaxLength ==> r.deckId == value
  {
    if paramDeckId.Some? && paramDeckId.value != "" then st
    else st.(deckId := if |value| <= DeckIdMaxLength then value else value[..DeckIdMaxLength])
  }

  /** The route effect: a non-empty `:deckId` fills the field and switches
      to "join"; an empty or missing one changes nothing. */
  function OnRouteParam(st: WelcomeState, paramDeckId: Option<string>): (r: WelcomeState)
    ensures paramDeckId.Some? && paramDeckId.value != "" ==>
              r == WelcomeState(JoinDeck, st.name, paramDeckId.value)
    ensures paramDeckId.None? || paramDeckId.value == "" ==> r == st
  {
    match paramDeckId
    case Some(d) => if d != "" then st.(deckId := d, op := JoinDeck) else st
    case None => st
  }

  /** A value interpolated into a template literal: `null` prints as "null". */
  function TemplateText(v: Option<string>): (t: string)
    ensures v.Some? ==> t == v.value
    ensures v.None? ==> t == "null"
  {
    match v
    case Some(s) => s
    case None => "null"
  }

  /** The deck page path with its token query. */
  function DeckPath(deckId: string, token: string): string {
    "/deck/" + deckId + "?permissibleSlides=" + token
  }

  /** Where a submit goes and the user name it stores. */
  datatype Navigation = Navigation(userName: string, path: string)

  /** `handleSubmit`: stores the typed name, then joins the typed deck with
      the forwarded token when the operation is "join" and a deck id is
      present, and otherwise creates a deck with a fresh id and the full
      grant. */
  function Submit(st: WelcomeState, tokenParam: Option<string>, randomId: string): (n: Navigation)
    ensures n.userName == st.name
    ensures st.op == JoinDeck && st.deckId != "" ==>
              n.path == DeckPath(st.deckId, TemplateText(tokenParam))
    ensures !(st.op == JoinDeck && st.deckId != "") ==> n.path == DeckPath(randomId, "all")
  {
    var token := TemplateText(tokenParam);
    if st.deckId != "" && st.op == JoinDeck then Navigation(st.name, DeckPath(st.deckId, token))
    else Navigation(st.name, DeckPath(randomId, "all"))
  }

  // ---------------------------------------------------------------------
  // Reading a deck path back
  // ---------------------------------------------------------------------

  /** What the deck page reads from its location: the `:deckId` segment and
      the `permissibleSlides` value, when the query starts with it. */
  datatype DeckLink = DeckLink(deckId: string, token: Option<string>)

  const PathPrefix := "/deck/"
  const TokenQuery := "?permissibleSlides="

  /** The first index of `c` in `s`, or -1. */
  function IndexOfChar(s: string, c: char): (i: int)
    ensures -1 <= i < |s|
    ensures i >= 0 ==> s[i] == c && c !in s[..i]
    ensures i == -1 <==> c !in s
    decreases |s|
  {
    if |s| == 0 then -1
    else if s[0] == c then 0
    else
      var j := IndexOfChar(s[1..], c);
      assert s[1..][..if j < 0 then 0 else j] == s[1..1 + (if j < 0 then 0 else j)];
      if j < 0 then -1 else j + 1
  }

  /** Splits a deck path at the first `?` into the deck id and the token,
      reading the query as raw text. */
  function ParseDeckPath(path: string): (r: Option<DeckLink>)
    ensures r.Some? <==> |path| >= |PathPrefix| && path[..|PathPrefix|] == PathPrefix
    ensures r.Some? ==> '?' !in r.value.deckId
  {
    if |path| >= |PathPrefix| && path[..|PathPrefix|] == PathPrefix then
      var rest := path[|PathPrefix|..];
      var q := IndexOfChar(rest, '?');
      if q < 0 then Some(DeckLink(rest, None))
      else
        var query := rest[q..];
        var token := if |query| >= |TokenQuery| && query[..|TokenQuery|] == TokenQuery
                     then Some(query[|TokenQuery|..]) else None;
        Some(DeckLink(rest[..q], token))
    else None
  }

  /** The deck page reads back exactly the deck id and token a path was
      built from, provided the deck id holds no `?`. */
  lemma ParseDeckPathRoundTrip(deckId: string, token: string)
    requires '?' !in deckId
    ensures ParseDeckPath(DeckPath(deckId, token)) == Some(DeckLink(deckId, Some(token)))
  {
    var path := DeckPath(deckId, token);
    var query := TokenQuery + token;
    var rest := deckId + query;
    assert path == PathPrefix + rest;
    assert path[..|PathPrefix|] == PathPrefix && path[|PathPrefix|..] == rest;
    assert rest[..|deckId|] == deckId && rest[|deckId|..] == query;
    assert query[..|TokenQuery|] == TokenQuery && query[|TokenQuery|..] == token;
    IndexOfCharAfter(deckId, query, '?');
  }

  /** The first `c` in `a + b` is the head of `b` when `a` holds none. */
  lemma IndexOfCharAfter(a: string, b: string, c: char)
    requires c !in a && |b| >= 1 && b[0] == c
    ensures IndexOfChar(a + b, c) == |a|
  {
    var s := a + b;
    assert s[..|a|] == a && s[|a|] == c;
    assert forall k :: 0 <= k < |a| ==> s[k] == a[k];
  }

  /** A join forwards a present token verbatim and a missing one as "null". */
  lemma JoinForwardsToken(st: WelcomeState, tokenParam: Option<string>, randomId: string)
    requires st.op == JoinDeck && st.deckId != "" && '?' !in st.deckId
    ensures var link := ParseDeckPath(Submit(st, tokenParam, randomId).path);
            && link == Some(DeckLink(st.deckId, Some(TemplateText(tokenParam))))
            && (tokenParam.None? ==> link.value.token == Some("null"))
  {
    ParseDeckPathRoundTrip(st.deckId, TemplateText(tokenParam));
  }

  /** Coming in through `/join/:deckId` and submitting joins that deck. */
  lemma RouteThenSubmitJoins(name: string, paramDeckId: string, tokenParam: Option<string>, randomId: string)
    requires paramDeckId != "" && '?' !in paramDeckId
    ensures var st := OnRouteParam(NameChange(Initial, name), Some(paramDeckId));
            var n := Submit(st, tokenParam, randomId);
            && n.userName == name
            && ParseDeckPath(n.path) == Some(DeckLink(paramDeckId, Some(TemplateText(tokenParam))))
  {
    ParseDeckPathRoundTrip(paramDeckId, TemplateText(tokenParam));
  }

  /** A create always grants the whole deck. */
  lemma CreateGrantsAll(st: WelcomeState, tokenParam: Option<string>, randomId: string)
    requires st.op == CreateDeck && '?' !in randomId
    ensures ParseDeckPath(Submit(st, tokenParam, randomId).path) == Some(DeckLink(randomId, Some("all")))
  {
    ParseDeckPathRoundTrip(randomId, "all");
  }
}
