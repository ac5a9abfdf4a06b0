# Collaborative slide editor — a Dafny model

The editor is a single-page React application in which several people edit
one slide deck together. The deck — an owner connection id and an ordered
list of slides, each holding positioned text widgets — lives in a shared
Liveblocks room. Every connection also publishes an ephemeral presence
record: its name, colour, role, cursor, and the slides it may write.

This project models the logic that decides what an edit does and who may
make it. Every event handler is a pure function from a snapshot of the
shared state, and of the handler's inputs, to a new value. Fresh random ids,
the pointer position, the window origin and the room id are parameters.

The modules follow the source files:

| module | file | what it covers |
|---|---|---|
| `Common` | — | optional values (`null`/`undefined`, `??`), `Array.prototype.slice` index rules, `Distinct` |
| `Strings` | — | JavaScript `split`, `join`, `trim` and radix-less `parseInt` |
| `Base64` | — | `btoa` (section 4 of RFC 4648) and `atob` (the WHATWG forgiving-base64 decode) |
| `Model` | `src/components/*`, `src/pages/CollabEditor.tsx` | slides, widgets, roles, presence, the slide grant, `{ ...w, ...patch }` |
| `Permission` | `src/hooks/usePermission.ts` | the URL-driven permission hook |
| `SlideView` | `src/components/Slide.tsx` | `isReadonly`, widget creation, deletion and update, cursors |
| `SlideContainer` | `src/components/SlideContainer.tsx` | adding and deleting slides |
| `SlideWrapper` | `src/components/SlideWrapper.tsx` | the owner-gated slide controls |
| `CollabEditor` | `src/pages/CollabEditor.tsx` | token decoding, the bootstrap slide, the ownership claim, publishing presence |
| `InviteDialog` | `src/components/InviteDialog.tsx` | the invite dialog state and the link it copies |
| `Welcome` | `src/pages/Welcome.tsx` | the landing page that forwards a join link's token |
| `GrantCodec` | the three files above plus `Slide.tsx` | the grant end to end: dialog → link → landing page → presence → read-only test |
| `TextWidget` | `src/components/TextWidget.tsx` | the text box as a state machine of events and effects |
| `EditorHistory` | `src/hooks/useEditorHistory.ts` | undo/redo shortcuts and the batch pause flag |
| `Typography` | `src/components/WidgetTypographyTray.tsx` | the inline-style toggles |
| `Color` | `src/utils/color.ts` | `getColor` |
| `Header` | `src/components/Header.tsx` | user initials and the invite gate |

### Behaviour worth knowing

The model follows the code as written, including these consequences,
each proved as a lemma:

- **History batches do not nest.** `startBatch` and `endBatch` call
  `room.history.pause()` and `resume()`, which keep one boolean, so an
  inner `endBatch` already resumes the history. `EditorHistory.LastCallDecides`
  and `NestedBatchEndsEarly` show that the last call alone decides.
- **A token that fails to decode throws.** The deck page calls `atob`
  outside any `try`, so the model's `CollabEditor.JoinGrant` returns
  `None` rather than falling back to some grant.
- **The empty token is not "all".** A link without a token, or a subset
  link that selected nothing, publishes `""`, and `isReadonly` then locks
  every slide (`CollabEditor.MissingTokenLocksAll`,
  `GrantCodec.EmptySelectionLocksAll`).
- **The owner's grant comes from the token.** `isReadonly` in `Slide.tsx`
  never looks at the role, so an owner joining with a restrictive token is
  restricted (`CollabEditor.OwnerGrantFollowsToken`,
  `SlideView.OwnerWithEmptyGrantDisagrees`). The permission hook does have
  the owner bypass (`Permission.OwnerOrAllEditsEverything`).
- **A missing reference slide is not a no-op.** `handleAddSlide` slices at
  `findIndex`'s `-1`: "above" inserts before the last slide and "below" at
  the front (`SlideContainer.AddSlideMissingReference`).
- **Deleting checks no role.** Only the disabled buttons stop an editor
  (`SlideWrapper.DeleteHandlerIgnoresRole`).
- **A landing page reached without a token forwards the text "null".**
  That decodes to a three-character id that no generated slide id
  matches, so every slide is read-only
  (`GrantCodec.MissingTokenThroughWelcome`).
- **Closing the invite dialog clears the error but keeps the text.** The
  Invite button is disabled while the error flag is set, in either mode
  (`InviteDialog.StaleErrorBlocksFullInvite`). The close button clears the
  flag, so after a rejected "0" the next Invite copies a link that locks
  every slide (`GrantCodec.ClosedErrorLinkLocksAll`).

## Model

| member | source | states |
|---|---|---|
| Strings.SplitJoin | src/pages/CollabEditor.tsx:79 | splitting the comma-join of a non-empty list of comma-free parts gives back exactly that list |
| Strings.JoinSplit | src/hooks/usePermission.ts:18 | joining the parts of any split with the same separator restores the original text |
| Strings.TrimIdempotent | src/pages/CollabEditor.tsx:79 | `trim` applied twice equals `trim` applied once |
| Strings.TrimStart | src/components/InviteDialog.tsx:57 | the result is a suffix of the input; everything dropped is whitespace, and the result does not start with whitespace |
| Strings.TrimEnd | src/components/InviteDialog.tsx:57 | the result is a prefix of the input; everything dropped is whitespace, and the result does not end with whitespace |
| Strings.ParseDecimal | src/components/InviteDialog.tsx:33 | radix-less `parseInt` reads back every natural number printed in decimal |
| Strings.ParseAllDigits | src/components/InviteDialog.tsx:57 | on a non-empty string of decimal digits `parseInt` is the plain digit value |
| Base64.Btoa | src/components/InviteDialog.tsx:40 | `btoa` succeeds exactly on strings whose characters are all at most U+00FF; the output length is a multiple of four and is zero only for empty input |
| Base64.DecodeEncodeBody | src/components/InviteDialog.tsx:40 | decoding the unpadded alphabet characters of any Latin-1 string gives back that string |
| Base64.AtobBtoa | src/pages/CollabEditor.tsx:119-121 | `atob` undoes `btoa` on every string `btoa` accepts |
| Base64.AtobRejectsSingleChar | src/pages/CollabEditor.tsx:120 | a lone non-padding character is rejected by `atob` (the page throws) |
| Model.Merge | src/components/Slide.tsx:118-120 | every field the patch supplies overrides the widget's field; every other field is kept |
| Model.MergeIdempotent | src/components/Slide.tsx:118-120 | applying the same patch twice equals applying it once, and the empty patch leaves the widget unchanged |
| Permission.FromParams | src/hooks/usePermission.ts:13-20 | a missing `role` is "owner", any other text is kept as the role; the grant is "all" exactly when `slides` is missing or empty, and otherwise lists the comma-separated entries; deck edits and invites are allowed exactly for "owner" |
| Permission.EditableSet | src/hooks/usePermission.ts:26 | the set holds exactly the listed ids |
| Permission.CanEditSlide | src/hooks/usePermission.ts:22-28 | an owner or an "all" grant may edit any slide; otherwise exactly the listed ids |
| Permission.OwnerOrAllEditsEverything | src/hooks/usePermission.ts:23-24 | for an owner or an "all" grant every slide id is editable |
| Permission.EmptyListDeniesAll | src/hooks/usePermission.ts:26-27 | a non-owner with an empty list may edit no slide |
| Permission.CanEditSlideMonotone | src/hooks/usePermission.ts:22-28 | enlarging the granted list never revokes an id |
| Permission.SlidesParamRoundTrip | src/hooks/usePermission.ts:17-18 | a `slides` parameter built by joining comma-free ids grants exactly those ids |
| SlideView.IsReadonly | src/components/Slide.tsx:35-40 | a slide is writable exactly when the grant is "all" (never for the empty string), or when the grant lists its id |
| SlideView.MissingGrantIsReadonly | src/components/Slide.tsx:35-36 | before any grant is published every slide is read-only |
| SlideView.ReadonlyAgreesForEditors | src/components/Slide.tsx:37-40 | for a non-owner holding "all" or a list, `isReadonly` is exactly the negation of the hook's `canEditSlide` |
| SlideView.OwnerWithEmptyGrantDisagrees | src/components/Slide.tsx:37-40 | an owner with an empty grant may edit per the hook, yet the slide is read-only |
| SlideView.MapTarget | src/components/Slide.tsx:68-74 | the list keeps its length and ids; only slides with the target id change, and only in their widgets |
| SlideView.SlideClick | src/components/Slide.tsx:42-80 | a read-only slide ignores the click; otherwise the selection clears, and with the text tool a 250 x 120 empty widget is appended at the pointer on the target slide and selected |
| SlideView.RemoveWidget | src/components/Slide.tsx:93 | the survivors are exactly the widgets without the id; an absent id changes nothing |
| SlideView.RemoveWidgetConcat | src/components/Slide.tsx:93 | filtering distributes over concatenation, so survivors keep their order |
| SlideView.RemoveWidgetIdempotent | src/components/Slide.tsx:93 | removing an id twice equals removing it once |
| SlideView.DeleteWidget | src/components/Slide.tsx:82-102 | a read-only slide is unchanged; otherwise the widget is removed from the target slide only and the selection clears |
| SlideView.DeleteAbsentWidget | src/components/Slide.tsx:82-102 | deleting a widget id that no slide holds leaves the slides unchanged |
| SlideView.DeleteWidgetIdempotent | src/components/Slide.tsx:82-102 | deleting the same widget twice equals deleting it once |
| SlideView.PatchWidgets | src/components/Slide.tsx:118-120 | widgets with the id get the patch merged in; all others are unchanged |
| SlideView.UpdateWidget | src/components/Slide.tsx:104-128 | a read-only slide is unchanged; otherwise only widgets on the target slide with the widget id change, by the merge; shape and ids are kept |
| SlideView.UpdateAbsentWidget | src/components/Slide.tsx:104-128 | updating a widget id that no slide holds is a no-op |
| SlideView.UpdateWidgetIdempotent | src/components/Slide.tsx:104-128 | applying the same update twice equals applying it once |
| SlideView.RemoteCursors | src/components/Slide.tsx:178-199 | every other connection whose cursor is on this slide is drawn, and nothing else is |
| SlideView.RemoteCursorsConcat | src/components/Slide.tsx:178-199 | drawing distributes over splitting the connection list, so the marks keep the order of the other connections |
| SlideView.MovedCursorShowsOnlyThere | src/components/Slide.tsx:130-141 | after a move over a slide, the connection's cursor shows on that slide and no other |
| SlideView.LeftCursorShowsNowhere | src/components/Slide.tsx:143-148 | after leaving, the connection's cursor shows on no slide |
| SlideContainer.FindIndex | src/components/SlideContainer.tsx:24 | the index of the first slide with the id, or -1 exactly when there is none |
| SlideContainer.InsertionIndex | src/components/SlideContainer.tsx:31-37 | "above" lands at the reference index and "below" right after it; a -1 index puts "above" before the last slide and "below" at the front; a render-time index past the end of the fresh list (a stale render) appends at the end |
| SlideContainer.AddSlide | src/components/SlideContainer.tsx:17-41 | a non-owner changes nothing; an owner gets the fresh list with exactly one empty slide inserted and everything else in order |
| SlideContainer.AddSlideOnlyInserts | src/components/SlideContainer.tsx:31-39 | removing the inserted slide gives back the fresh list |
| SlideContainer.AddSlideNextToReference | src/components/SlideContainer.tsx:31-37 | with an up-to-date render the new slide sits directly above or below the reference |
| SlideContainer.AddSlideMissingReference | src/components/SlideContainer.tsx:24-37 | with the reference missing, "below" inserts at the front and "above" just before the last slide |
| SlideContainer.StaleIndexMisplaces | src/components/SlideContainer.tsx:24-33 | the index is taken from the rendered list, so a concurrent delete makes "above" land below the reference |
| SlideContainer.KeepOthers | src/components/SlideContainer.tsx:47 | the survivors are exactly the slides without the id |
| SlideContainer.KeepOthersConcat | src/components/SlideContainer.tsx:47 | filtering distributes over concatenation, so survivors keep their order |
| SlideContainer.DeleteSlide | src/components/SlideContainer.tsx:43-58 | the result is never empty: the survivors, or one fresh empty slide when none survive |
| SlideContainer.DeleteAbsentSlide | src/components/SlideContainer.tsx:43-58 | deleting an id no slide carries leaves a non-empty list unchanged |
| SlideContainer.DeleteLastSlide | src/components/SlideContainer.tsx:49-54 | deleting the only slide leaves exactly one fresh empty slide |
| SlideContainer.SlideEditsKeepDeckNonEmpty | src/components/SlideContainer.tsx:17-58 | adding and deleting both keep a non-empty deck non-empty |
| SlideWrapper.Press | src/components/SlideWrapper.tsx:27-78 | every control is disabled unless the presence role is owner; an enabled control asks for its own action on its own slide |
| SlideWrapper.PressAndApply | src/components/SlideWrapper.tsx:44-78 | pressing a control as a non-owner changes nothing; as owner, delete runs the delete handler and each add button runs the add handler with its own placement, adding exactly one slide |
| SlideWrapper.AddPressOnlyInserts | src/components/SlideWrapper.tsx:44-78 | an owner's add press puts one empty slide at the slice index computed from the render, and taking it out gives back the fresh list |
| SlideWrapper.DeleteHandlerIgnoresRole | src/components/SlideContainer.tsx:43-47 | the delete handler removes the slide even for an editor, whereas the add handler refuses |
| Color.GetColor | src/utils/color.ts:9-13 | the colour is always a palette entry: the first for an empty name, otherwise the entry at the code sum modulo four |
| Color.CodeSumConcat | src/utils/color.ts:11 | the code sum of a concatenation is the sum of the code sums |
| Color.CodeSumPermutation | src/utils/color.ts:11 | strings with the same characters have the same code sum |
| Color.ColorIgnoresOrder | src/utils/color.ts:9-13 | rearranging the letters of a name keeps its colour |
| CollabEditor.DecodeToken | src/pages/CollabEditor.tsx:119-121 | "all" and "" pass through; any other decoded token is Latin-1 text |
| CollabEditor.PublishedGrant | src/pages/CollabEditor.tsx:76-79 | the grant is "all" or "" exactly for those strings; otherwise a non-empty list of comma-free ids whose join is the trimmed text |
| CollabEditor.JoinGrant | src/pages/CollabEditor.tsx:93 | the join fails exactly when decoding throws; a missing parameter publishes "" and "all" publishes "all" |
| CollabEditor.MissingTokenLocksAll | src/pages/CollabEditor.tsx:93 | a link without a token publishes the empty grant |
| CollabEditor.Bootstrap | src/pages/CollabEditor.tsx:40-55 | a non-empty fresh list, or a non-empty render, is never touched; an empty render over an empty fresh list gets one empty slide |
| CollabEditor.BootstrapIdempotent | src/pages/CollabEditor.tsx:40-55 | after a bootstrap the list is non-empty and any later bootstrap leaves it alone |
| CollabEditor.ClaimOwnership | src/pages/CollabEditor.tsx:57-65 | a stored owner is never replaced; an attempted claim on an empty store writes the caller's id |
| CollabEditor.OwnerNeverOverwritten | src/pages/CollabEditor.tsx:60-61 | once an owner is stored, no sequence of claims changes it |
| CollabEditor.FirstClaimWins | src/pages/CollabEditor.tsx:57-65 | the first attempted claim decides the owner, whatever follows |
| CollabEditor.RoleOf | src/pages/CollabEditor.tsx:71-75 | a connection is owner exactly when the stored owner is its own id |
| CollabEditor.RaceHasOneOwner | src/pages/CollabEditor.tsx:57-75 | of two claims by connections that both saw no owner, applied in turn, the first wins and the other connection is an editor |
| CollabEditor.Publish | src/pages/CollabEditor.tsx:67-82 | nothing is published without a name or a known owner; otherwise the name, `getColor` of the name (a palette colour), the owner role exactly for the owner's connection, and the grant from the token |
| CollabEditor.ApplyPublished | src/pages/CollabEditor.tsx:73-81 | publishing overwrites name, role, grant and colour with the published values and leaves the cursor fields alone |
| CollabEditor.OwnerGrantFollowsToken | src/pages/CollabEditor.tsx:71-79 | an owner joining with an empty token publishes the owner role with the empty grant |
| CollabEditor.OneOwnerPublishes | src/pages/CollabEditor.tsx:57-75 | after the claims, a connection publishes the owner role exactly when it made the first claim, so no two connections publish owner |
| CollabEditor.JoinedPresence | src/pages/CollabEditor.tsx:67-93 | a joining connection's presence carries the grant its token decodes to, its own name and the colour derived from that name, with the cursor fields kept |
| InviteDialog.ParseNumbers | src/components/InviteDialog.tsx:33 | one `parseInt` result per entry |
| InviteDialog.SelectFrom | src/components/InviteDialog.tsx:35-36 | every id whose 1-based position was typed is selected, and nothing else |
| InviteDialog.SelectFromConcat | src/components/InviteDialog.tsx:35-36 | selection distributes over splitting the deck, so it keeps deck order |
| InviteDialog.SelectFromDistinct | src/components/InviteDialog.tsx:32-36 | distinct slide ids give a selection without repeats |
| InviteDialog.SelectEverything | src/components/InviteDialog.tsx:35-36 | typing every position selects the whole deck in order |
| InviteDialog.SelectNothing | src/components/InviteDialog.tsx:35-36 | typing no valid position selects nothing |
| InviteDialog.InputChange | src/components/InviteDialog.tsx:51-60 | the text is stored; empty text keeps the error flag; otherwise the flag is set exactly when some trimmed, comma-separated entry parses to a number outside 1..slide count |
| InviteDialog.ChangeMode | src/components/InviteDialog.tsx:73 | only the mode changes; the text and the error flag stay |
| InviteDialog.Submit | src/components/InviteDialog.tsx:21-49 | the handler alone: subset mode with an error returns early; a `btoa` failure throws; otherwise the link carries the encoded token and the dialog resets; a full-deck share always copies the "YWxs" link |
| InviteDialog.BtoaAll | src/components/InviteDialog.tsx:30 | the full-deck token is "YWxs" |
| InviteDialog.PressInvite | src/components/InviteDialog.tsx:104-113 | the Invite button does nothing while the error flag is set, in either mode; otherwise it copies the link with the encoded token (or the "YWxs" link for a full-deck share) and resets the dialog, or throws when `btoa` fails |
| InviteDialog.SubmitGuardBehindButton | src/components/InviteDialog.tsx:21-23 | behind the button the handler's own guard never fires, and in full mode with a stale error the button refuses what the handler alone would copy |
| InviteDialog.Close | src/components/InviteDialog.tsx:66 | the close button clears the error flag and keeps the mode and the typed text |
| InviteDialog.StaleErrorBlocksFullInvite | src/components/InviteDialog.tsx:51-60 | an out-of-range entry sets the flag, which survives a switch to full mode, where the disabled Invite button still blocks the full-deck link the handler alone would copy |
| InviteDialog.CloseThenInviteSharesNothing | src/components/InviteDialog.tsx:66 | after a rejected "0", closing re-enables Invite with the text kept, and the press copies a link with the empty token |
| InviteDialog.NonNumericInputSelectsNothing | src/components/InviteDialog.tsx:51-60 | non-numeric text raises no error and selects no slide |
| InviteDialog.ZeroIsOutOfRange | src/components/InviteDialog.tsx:57-58 | slide number 0 raises the error for any deck |
| Welcome.SelectOperation | src/pages/Welcome.tsx:31-33 | only the operation changes |
| Welcome.NameChange | src/pages/Welcome.tsx:84-86 | only the name changes |
| Welcome.DeckIdChange | src/pages/Welcome.tsx:93-98 | the field is frozen when the route has a deck id; otherwise it takes a prefix of the typed text of at most six characters, and the whole text when it fits |
| Welcome.OnRouteParam | src/pages/Welcome.tsx:35-40 | a non-empty route deck id fills the field and switches to joining; otherwise nothing changes |
| Welcome.TemplateText | src/pages/Welcome.tsx:25 | a present value is printed as is; `null` prints as "null" |
| Welcome.Submit | src/pages/Welcome.tsx:20-29 | the typed name is stored; joining with a deck id goes to that deck and forwards the token; anything else creates a random deck with "all" |
| Welcome.ParseDeckPath | src/app/AppRouter.tsx:11 | a path parses exactly when it starts with "/deck/", and the parsed deck id holds no "?" |
| Welcome.ParseDeckPathRoundTrip | src/pages/Welcome.tsx:25-27 | the deck page reads back exactly the deck id and token a path was built from |
| Welcome.JoinForwardsToken | src/pages/Welcome.tsx:23-25 | a join forwards a present token verbatim and a missing one as "null" |
| Welcome.RouteThenSubmitJoins | src/pages/Welcome.tsx:20-40 | arriving on `/join/:deckId` and submitting joins that deck with the forwarded token |
| Welcome.CreateGrantsAll | src/pages/Welcome.tsx:26-27 | creating a deck always grants "all" |
| GrantCodec.JoinedIdsSplitBack | src/pages/CollabEditor.tsx:79 | the join of generated ids is non-empty, Latin-1, unchanged by `trim`, and splits back into the ids |
| GrantCodec.DecodeTokenOfBtoa | src/pages/CollabEditor.tsx:120 | the deck page decodes any non-empty `btoa` output to its input |
| GrantCodec.SubsetTokenRoundTrip | src/components/InviteDialog.tsx:40 | a subset token publishes exactly the joined ids, and exactly those slides are writable |
| GrantCodec.FullInviteGrantsAll | src/components/InviteDialog.tsx:29-30 | with the Invite button enabled, a full-deck invite copies the "YWxs" link, which publishes "all" and leaves no slide read-only |
| GrantCodec.EmptySelectionLocksAll | src/components/InviteDialog.tsx:32-40 | an enabled subset invite selecting nothing copies an empty token, which locks every slide |
| GrantCodec.ClosedErrorLinkLocksAll | src/components/InviteDialog.tsx:66 | the link copied after closing a rejected "0" carries the empty token, and every slide is read-only under it |
| GrantCodec.SubsetInviteEndToEnd | src/components/InviteDialog.tsx:32-40 | a subset invite travels through the landing page and publishes exactly the selected ids |
| GrantCodec.SubsetJoinerPresence | src/pages/CollabEditor.tsx:67-93 | a connection joining with a subset link publishes a presence under which exactly the shared slides are writable, and its role comes from the owner record alone |
| GrantCodec.MissingTokenThroughWelcome | src/pages/Welcome.tsx:23-25 | without a token the landing page forwards "null", which decodes to a single id no generated slide id matches, so every slide is read-only |
| TextWidget.OnKeyDown | src/components/TextWidget.tsx:30-44 | Delete or Backspace deletes exactly when selected and not editing; Escape leaves editing; nothing else changes |
| TextWidget.OnMouseDown | src/components/TextWidget.tsx:56-77 | a read-only slide ignores the press; otherwise a batch opens and the widget is selected, and only the select tool records the drag and attaches the listeners |
| TextWidget.DragPatch | src/components/TextWidget.tsx:82-88 | the patch moves only x and y, to the origin plus the pointer's offset from the drag start |
| TextWidget.OnDocMouseMove | src/components/TextWidget.tsx:79-89 | with both refs set the widget moves by the drag patch; otherwise nothing happens |
| TextWidget.OnDocMouseUp | src/components/TextWidget.tsx:91-97 | while attached, the refs clear, the batch closes and the listeners detach |
| TextWidget.OnTextInput | src/components/TextWidget.tsx:126-127 | typing reaches the widget only while editing |
| TextWidget.ReadonlyIgnoresPointer | src/components/TextWidget.tsx:46-58 | on a read-only slide click, double click and press do nothing |
| TextWidget.MovesOnlyUpdate | src/components/TextWidget.tsx:79-89 | while a drag is attached, moves keep the state and emit one position update each |
| TextWidget.DragFollowsPointer | src/components/TextWidget.tsx:56-89 | a select-tool press and move open a batch, select, and move the widget by the pointer's offset |
| TextWidget.SelectDragPairsBatches | src/components/TextWidget.tsx:56-97 | a select-tool drag opens and closes exactly one batch and ends detached with the history running |
| TextWidget.NoBatchInUpdates | src/components/TextWidget.tsx:85-88 | position updates contain no batch calls |
| TextWidget.RunConcat | src/components/TextWidget.tsx:30-132 | running two event lists in turn equals running their concatenation |
| TextWidget.TextToolLeavesBatchOpen | src/components/TextWidget.tsx:60-63 | a text-tool press opens a batch that the release does not close, so the history stays paused |
| TextWidget.EscapeThenDelete | src/components/TextWidget.tsx:30-44 | while editing the delete key does nothing; after Escape it deletes the widget |
| TextWidget.MountedUnselectedIsLocked | src/components/TextWidget.tsx:99-103 | a freshly mounted, unselected widget leaves editing and ignores typing |
| TextWidget.DragInsideFocusEndsBatch | src/components/TextWidget.tsx:128-132 | a drag inside a focused box closes the focus batch at release, so the history runs again |
| EditorHistory.ShortcutCommand | src/hooks/useEditorHistory.ts:18-32 | undo exactly for Ctrl/Meta with Z and no Shift; redo exactly for Ctrl/Meta with Shift+Z or with Y; nothing without Ctrl/Meta |
| EditorHistory.LowerSingle | src/hooks/useEditorHistory.ts:21 | a key lower-cases to a letter exactly when it is that letter or its capital |
| EditorHistory.ApplyBatch | src/hooks/useEditorHistory.ts:38-44 | start pauses and end resumes, whatever the previous state |
| EditorHistory.LastCallDecides | src/hooks/useEditorHistory.ts:38-44 | after any non-empty sequence of batch calls, the history is paused exactly when the last call was a start |
| EditorHistory.NestedBatchEndsEarly | src/hooks/useEditorHistory.ts:38-44 | two starts and one end leave the history running |
| Typography.IndexOf | src/components/WidgetTypographyTray.tsx:48 | the first index of the style, or -1 exactly when it is absent |
| Typography.ToggleStyle | src/components/WidgetTypographyTray.tsx:47-60 | an absent style is appended; a present one loses its first occurrence; the counts of other styles are unchanged |
| Typography.ToggleFlipsOnlyPressed | src/components/WidgetTypographyTray.tsx:38-60 | on a duplicate-free list a toggle flips exactly the pressed button's highlight and keeps the list duplicate-free |
| Typography.DuplicateStaysActive | src/components/WidgetTypographyTray.tsx:38-60 | with a duplicate, a toggle removes one copy and the button stays lit |
| Typography.ToggleAbsentTwice | src/components/WidgetTypographyTray.tsx:51-52 | toggling an absent style twice restores the list exactly |
| Typography.TogglePresentTwice | src/components/WidgetTypographyTray.tsx:47-60 | toggling a present style twice keeps the same styles but moves the pressed one to the end |
| Typography.ToggleTwiceReorders | src/components/WidgetTypographyTray.tsx:47-60 | toggling bold off and on behind italic gives italic, bold |
| Header.Initials | src/components/Header.tsx:19-24 | at most two characters: the first characters of the first two space-separated parts of the name, defaulting to "Guest" |
| Header.InitialsOfWords | src/components/Header.tsx:19-24 | a name of single-space-separated words shows the first letters of its first two words |
| Header.DefaultInitials | src/components/Header.tsx:19-24 | a missing name shows "G" and an empty one shows nothing |
| Header.DoubleSpaceDropsSecondInitial | src/components/Header.tsx:20-24 | a double space yields an empty second part, so only one initial shows |
| Header.InviteFollowsPresenceNotUrl | src/components/Header.tsx:42-55 | with no URL parameters the hook says the connection may invite, but the header's gate follows the presence role and stays closed for an editor or an unpublished role |

## Left out

- The Liveblocks substrate: storage, presence delivery, reconnection and the history stack are not modelled. Each handler reads a snapshot passed in as a parameter, and `getStorage().then(...)` is modelled as reading that snapshot.
- CollabEditor.RaceHasOneOwner: the claims are applied one after another. In the room, two `getStorage().then` callbacks that both read a null owner would both write, and the last write to arrive would win; that interleaving is not modelled.
- Asynchronous interleaving: a handler's read-modify-write is modelled as one step. Only the stale-render case is shown (`SlideContainer.StaleIndexMisplaces`).
- `generateRandomId` in src/utils/number.ts: fresh ids are parameters, so two fresh ids may coincide. Only their base-36 shape is assumed (`GrantCodec.IsGeneratedId`).
- Pointer coordinates and `getBoundingClientRect` are floating point in the browser; the model uses integers.
- The `slideRef.current` null checks in Slide.tsx: the model assumes the slide element is mounted.
- Rendering, CSS, toasts, `console.log`, the clipboard write and its failure, and `navigate`'s side effects beyond the path it is given.
- `Header.ConnectedCount` and `Header.CanInvite` are stated with no contract of their own; `Header.InviteFollowsPresenceNotUrl` states what the gate does.
- `TextWidget.OnFocus` and `TextWidget.OnBlur` have no contract of their own; `TextWidget.DragInsideFocusEndsBatch` and `TextWidget.Run` exercise them.
- TextWidget.Run: the props are held fixed during a run. A re-render between events with new props is not modelled.
- TextWidget listener identity: attaching the listeners twice is modelled as a single `listening` flag.
- EditorHistory.ShortcutCommand: lower-casing is modelled for ASCII only. No other character lower-cases to a single "z" or "y", so the command chosen is the same.
- Strings are sequences of Unicode scalar values, whereas JavaScript strings are UTF-16 code units. They differ only above U+FFFF: `getColor`'s code sum, `btoa`'s rejection and `part[0]` in the initials would see surrogate halves there.
- The deck page's query parsing is modelled only for the `permissibleSlides` parameter at the end of the path (`Welcome.ParseDeckPath`). Percent-decoding of URL parameters is not modelled: generated ids, base64 tokens and "null" need none, except that a `+` in a token would read as a space.
- Welcome.ParseDeckPath: a deck id containing "/" would not match the `/deck/:deckId` route and would reach the not-found page; the model still parses it.
- The `!deckId` redirect in CollabEditor.tsx and the router's other routes: the model starts from a matched `/deck/:deckId`.
- The typography tray's block select (WidgetTypographyTray.tsx:64-75) and link controls (WidgetTypographyTray.tsx:77-119): each forwards the chosen value, or the pasted text unchecked, to its parent and holds no logic of its own.
- ToolsTray.tsx, Editor.tsx's layout and the ConnectionContext provider: they pass values through and hold no logic of their own.
- The publish effect's dependency list: it re-runs when the name, the presence updater or the owner changes, not when the token does. The model computes one publication per call.
