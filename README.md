# Google Calendar import for Roam, modelled in Dafny

This project models the logic of the roamjs Google Calendar extension with its
network and graph calls taken out:

- **Event template formatter** (`Event`, src/event.ts). One calendar event
  becomes one line of text through seventeen substitution passes over a
  template. Six deprecated `/Token` passes come first, then the `{tag}` and
  `{tag:argument}` passes. Each pass replaces at most its first match, and
  each pass scans the text the earlier passes left, inserted text included.
  An empty template falls back to a fixed layout.
- **Calendar import** (`Import` and `ImportOrder`, src/index.ts,
  `fetchGoogleCalendar`). It reads the settings from the configuration tree
  or from the legacy key-value settings. It asks for each calendar's events,
  tags every event with its calendar, sorts the events with the source's
  comparator (by a stable sort) and drops free events when asked to. It
  formats the events and appends one error line per failed calendar.
- **"Add Google Calendar Event"** (`AddEvent`, src/index.ts). These are the
  properties the event dialog opens with: the focused block's text, its
  `key:: value` children, and the defaults.
- **Access token** (`Token`, src/util.ts, `getAccessToken`). It picks the
  credential, decides whether to refresh it, and computes what a refresh
  writes back into local storage or into the credential's block.
- **Event dialog** (`EventDialog`, src/CreateEventDialog.tsx). It covers the
  calendars offered and the one selected first, the request sent, and the
  writes that follow the answer. After an update, the old summary,
  description and location are rewritten in the blocks around the edited one.

Everything outside the program is a parameter of the model:

- the clock;
- date formatting (`tf`);
- the natural-language date parser;
- `JSON.parse` on a stored credential;
- `encodeURIComponent`;
- the calendar service's answers;
- the refresh service's answer;
- the graph's blocks.

Writes into the graph and into local storage are returned as lists. `Token`
gives those lists a meaning over a host state (`ApplyWrites`). Times are whole
minutes in `Event`, `Import` and `AddEvent`, and milliseconds in `Token`.

The shared pieces live in separate modules:

- `Strings`: the JavaScript string operations the source uses. `replace` with
  a text pattern replaces the first occurrence only. `replace` with a `/g`
  pattern replaces every occurrence. Also `indexOf`, `includes`, `split`,
  `join`, `trim` and `toLowerCase`.
- `Blocks`: the graph's block tree.
- `Wrappers`: `Option`.

Two behaviours of the import are worth stating up front:

- When no events come back, the code outputs the empty-day line followed by
  every error line, whether or not there are errors (src/index.ts:157-158).
- The code checks for emptiness before it drops free events
  (src/index.ts:157-165). So a day whose events are all free, imported with
  "skip free" on and with no error, writes no line at all.
  `Import.AllFreeDayIsEmpty` proves this.

## Model

| member | source | states |
|---|---|---|
| Event.ResolveDate | src/event.ts:26-32 | an absent time renders as `All Day`, whatever the format |
| Event.StartAllDay | src/event.ts:26-29 | a `{start:f}` template for an event without a start time renders as `All Day`, for every format `f` with no brace, no line break and no deprecated token (a `/` is allowed) |
| Event.EndAllDay | src/event.ts:26-29 | the same for `{end:f}` and an event without an end time |
| Event.StartDefaultFormat | src/event.ts:4 | `{start}` and `{start:hh:mm a}` give the same line, because an empty capture falls back to the default format |
| Event.EndDefaultFormat | src/event.ts:4 | `{end}` and `{end:hh:mm a}` give the same line |
| Event.StartBareTemplate | src/event.ts:90-92 | the template `{start}` becomes the start time in the default format, then goes through the passes after `{start}` |
| Event.StartArgumentTemplate | src/event.ts:90-92 | the template `{start:f}` becomes the start time in format `f`, then goes through the passes after `{start}`, for every format `f` with no brace, no line break and no deprecated token (a `/` is allowed) |
| Event.EndBareTemplate | src/event.ts:93-95 | the template `{end}` becomes the end time in the default format, then goes through the passes after `{end}` |
| Event.EndArgumentTemplate | src/event.ts:93-95 | the template `{end:f}` becomes the end time in format `f`, then goes through the passes after `{end}`, for every format `f` with no brace, no line break and no deprecated token (a `/` is allowed) |
| Event.StartOnlyTemplate | src/event.ts:73-98 | a template that is one `{start…}` tag and holds no deprecated token passes the legacy and early passes untouched, and the tag becomes the formatted start |
| Event.EndOnlyTemplate | src/event.ts:73-98 | a template that is one `{end…}` tag and holds no deprecated token passes every earlier pass untouched, including `{start}`, and the tag becomes the formatted end |
| Event.SummaryText | src/event.ts:42-43 | the summary text is `busy` for a private event, else the summary, else `No Summary`; it is never empty |
| Event.LinkedSummary | src/event.ts:61-65 | the summary is wrapped as `[text](htmlLink)` exactly when links are asked for and the event has one |
| Event.NoLinkNoWrap | src/event.ts:62-65 | without an event link, asking for links changes nothing, for every template |
| Event.ConfLink | src/event.ts:66-70 | the Meet fragment appears exactly when there is a hangout link, the Zoom fragment exactly when the location contains `zoom.us`, and Meet comes before Zoom |
| Event.ResolveAttendees | src/event.ts:34-40 | no attendees render as the empty text |
| Event.DefaultAttendeeFormat | src/event.ts:34-40 | with the default format, an attendee renders as the display name, or as the email when there is no display name |
| Event.ResolveAttendeesCons | src/event.ts:34-40 | the attendees are rendered one by one and joined by `, ` |
| Event.RenderAttendeeSplitJoin | src/event.ts:37-38 | every `NAME` in the attendee format is replaced: the format split at `NAME` and joined with the name |
| Event.ResolveDuration | src/event.ts:45-53 | the duration reads back as end minus start in minutes, and is exactly `1440` when either time is absent |
| Event.CustomPlaceholder | src/event.ts:22-24 | `{custom}` stays literally in place without a custom formatter, and becomes the formatter's text with one |
| Event.CustomAbsentKeepsPlaceholder | src/event.ts:73-98 | without a custom formatter, every template renders as through every pass but the last: the `{custom}` pass puts the placeholder back in its own place |
| Event.CustomRest | src/event.ts:90-98 | the template `{custom}` goes untouched through `{start}`, `{end}`, `{calendar}` and `{duration}` and becomes the custom text |
| Event.CustomMissesEarlyTokens | src/event.ts:82-89 | no placeholder pass before `{start}` finds anything in `{custom}` |
| Event.CustomMissesLateTokens | src/event.ts:90-97 | `{start}`, `{end}`, `{calendar}` and `{duration}` find nothing in `{custom}` |
| Event.CustomLateInert | src/event.ts:90-97 | the `{start}`, `{end}`, `{calendar}` and `{duration}` passes leave `{custom}` unchanged |
| Event.CustomLastPass | src/event.ts:98 | the last pass turns `{custom}` into the custom text |
| Event.EmptyTemplateLayout | src/event.ts:100-104 | an empty template gives `summary (start - end)` followed by the Meet and Zoom fragments |
| Event.FormatEvent | src/event.ts:55-105 | a non-empty template in which no pass recognises anything comes back unchanged, whatever the event; FormatInStages and the template lemmas state the rest |
| Event.NoSlashNoBracePlain | src/event.ts:73-98 | a template without `/` and without `{` is recognised by no pass |
| Event.NoSlashMissesLegacyTokens | src/event.ts:75-80 | without a `/`, no deprecated token occurs |
| Event.NoBraceMissesPlaceholders | src/event.ts:82-98 | without a `{`, no placeholder occurs |
| Event.NoBraceMissesTimeTokens | src/event.ts:90-98 | without a `{`, neither the time tags nor the later placeholders occur |
| Event.LegacySummaryUnlinked | src/event.ts:75 | the deprecated `/Summary` token becomes the unlinked summary text, whether or not links are asked for |
| Event.LegacySummaryPass | src/event.ts:75-80 | the six deprecated passes turn `/Summary` into the summary text |
| Event.SummaryTextRescanned | src/event.ts:82-83 | a summary that reads `{link}`, put in by the `{summary}` pass, is itself replaced by the `{link}` pass |
| Event.SummaryThenLink | src/event.ts:82-83 | after `{summary}` puts in `{link}`, the `{link}` pass turns it into the event's link |
| Event.OnlyTokenReplaced | src/event.ts:75-98 | a pass over text that is exactly its token gives the replacement |
| Event.FormatInStages | src/event.ts:71-99 | a non-empty template goes through the deprecated passes, then the early placeholder passes, then `{start}` and the rest, in that order |
| Event.ApplyAllAppend | src/event.ts:73-98 | running two lists of passes one after the other is running their concatenation |
| Event.ApplyAllInert | src/event.ts:73-98 | passes that find nothing leave the text as it is |
| Event.InertApply | src/event.ts:73-98 | one pass that finds nothing leaves the text as it is |
| Event.PlainInert | src/event.ts:73-98 | in plain text, every group of passes leaves the text unchanged |
| Event.LegacyPassesInert | src/event.ts:75-80 | without deprecated tokens, the deprecated passes change nothing |
| Event.EarlyTagPassesInert | src/event.ts:82-89 | without early placeholders, the passes before `{start}` find nothing |
| Event.LateTagPassesInert | src/event.ts:93-98 | without late placeholders, the passes after `{start}` find nothing |
| Event.TagTemplateBeforeStart | src/event.ts:75-89 | a template that is one other `{tag}` with no deprecated token goes untouched through every pass before `{start}` |
| Event.EndLikeBeforeEnd | src/event.ts:75-92 | a template that is one `{en…}` tag goes untouched through every pass before `{end}` |
| Event.EndLikeMissesStart | src/event.ts:90-92 | the `{start}` pass leaves a template that is one `{e…}` tag unchanged |
| Event.AllDayInert | src/event.ts:93-98 | the passes after `{start}` leave the text `All Day` unchanged |
| Event.OtherTagMissesEarlyTokens | src/event.ts:82-89 | a template that is one other `{tag}` holds no early placeholder |
| Event.OtherTagMissesPlaceTokens | src/event.ts:85-89 | a template that is one other `{tag}` holds neither `{confLink}`, `{location}` nor an attendees tag |
| Event.TagTemplateShape | src/event.ts:87-95 | `{name}` and `{name:f}`, with a slash-free name and a plain `f`, hold no deprecated token and no `{` after the first character |
| Event.EnclosedMissesLegacyTokens | src/event.ts:75-80 | a text without deprecated tokens gains none when put after a slash-free text and before `}` |
| Event.WholeTagApplies | src/event.ts:87-95 | a tag that matches the whole text is replaced by its rendering |
| Event.BareMatch | src/event.ts:87-95 | `{name:?(.*?)}` matches `{name}` whole, capturing nothing |
| Event.ArgumentMatch | src/event.ts:87-95 | `{name:?(.*?)}` matches `{name:f}` whole and captures `f`, when `f` holds no `}` and no line break |
| Event.MatchAt | src/event.ts:87-95 | a match starts where it was tried and ends inside the text |
| Event.MatchAtShape | src/event.ts:87-95 | a match is `{name`, an optional `:`, the capture, and `}` |
| Event.MatchAtCapture | src/event.ts:87-95 | the lazy capture holds no `}` and no line break |
| Event.TagSlice | src/event.ts:87-95 | a tag's text, cut into opening, optional colon, capture and closing brace |
| Event.CloseBrace | src/event.ts:87-95 | the lazy `(.*?)}` stops inside the text |
| Event.CloseBraceSpec | src/event.ts:87-95 | the lazy `(.*?)}` stops at the first `}`, and fails only when a line break comes before every `}` |
| Event.CloseBraceFirst | src/event.ts:87-95 | the first `}` with no line break before it is where the lazy `(.*?)}` stops |
| Event.FindTag | src/event.ts:87-95 | a found tag lies inside the text searched |
| Event.FindTagSpec | src/event.ts:87-95 | the tag found is the leftmost match, and none is found only when nothing matches |
| Event.NoOpenNoTag | src/event.ts:87-95 | without `{name` in the text, the tag pass finds nothing |
| Event.NoMatchFrom | src/event.ts:87-95 | without any occurrence of `{name`, no match exists from any position |
| Event.DefaultFormatPlain | src/event.ts:4 | the default time format `hh:mm a` is a plain argument |
| ImportOrder.CompareText | src/index.ts:142 | the summary comparison answers -1, 0 or 1 |
| ImportOrder.CompareTextZero | src/index.ts:142 | two summaries compare as the same exactly when they are equal |
| ImportOrder.CompareTextAntisymmetric | src/index.ts:142 | swapping the summaries flips the answer |
| ImportOrder.CompareTextTransitive | src/index.ts:142 | "not after" on summaries is transitive |
| ImportOrder.CompareEvents | src/index.ts:140-153 | equal starts, both absent included, order by summary, absent counting as empty; an absent start comes first; otherwise the earlier start comes first |
| ImportOrder.CompareEventsZero | src/index.ts:140-153 | the comparator ties two events exactly when they share start and summary |
| ImportOrder.CompareEventsAntisymmetric | src/index.ts:140-153 | swapping the events flips the comparator's sign |
| ImportOrder.CompareEventsTransitive | src/index.ts:140-153 | "not after" under the comparator is transitive |
| ImportOrder.Insert | src/index.ts:140 | one insertion step keeps the same events plus the inserted one |
| ImportOrder.SortEvents | src/index.ts:140 | sorting keeps the same events |
| ImportOrder.SortedCons | src/index.ts:140 | an event not after any event of a sorted list can go in front of it |
| ImportOrder.InsertSorted | src/index.ts:140 | inserting into a sorted list keeps it sorted |
| ImportOrder.SortEventsSorted | src/index.ts:140-153 | the sorted events are in comparator order and are a permutation of the input |
| ImportOrder.InsertTies | src/index.ts:140 | insertion keeps events the comparator cannot tell apart in their order |
| ImportOrder.SortEventsStable | src/index.ts:140 | the sort is stable: tied events keep their input order |
| Import.FindNamed | src/index.ts:79-83 | the node found mentions the name, ignoring case; none is found only when no node does |
| Import.FindNamedFirst | src/index.ts:79-83 | the node found is the first that mentions the name |
| Import.Texts | src/index.ts:84 | one calendar id per child, its text |
| Import.Legacy | src/index.ts:85-102 | a legacy setting is read exactly when it is present, and is read trimmed |
| Import.CalendarIdsListed | src/index.ts:81-84 | a `calendars` node under `import` lists the calendars, whatever the legacy page says, and none when it has no children |
| Import.CalendarIdsFallBack | src/index.ts:81-87 | without a `calendars` node, the ids are the trimmed legacy `Google Calendar` value, dropped when empty |
| Import.CalendarIds | src/index.ts:79-87 | without an import node there is at most one id: the trimmed legacy `Google Calendar` value, never empty |
| Import.Flag | src/index.ts:93-98 | a flag is on exactly when a child of the import node mentions it or its legacy value trims to `true` |
| Import.TemplateSetting | src/index.ts:99-102 | the template neither starts nor ends with white space, whichever setting it comes from |
| Import.ReadSettings | src/index.ts:79-102 | the link and skip-free flags are on exactly when a child of the import node mentions them or their legacy value trims to `true`; the template is trimmed |
| Import.TemplateChoice | src/index.ts:99-102 | the template is the trimmed first child of `format`, or else the trimmed legacy `Format`, or else empty |
| Import.SourceError | src/index.ts:125-133 | a failed calendar reads `Error for calendar <id>: `, then the public-calendar help for the 404 message, else the message, else `undefined` |
| Import.Settle | src/index.ts:124-134 | a loaded calendar gives its events and no error; a failed one gives no events and its error |
| Import.SettleAll | src/index.ts:109-136 | one result per configured calendar, in order, from its own answer |
| Import.Tagged | src/index.ts:139 | every event of a calendar is tagged with that calendar's id |
| Import.MergeMembers | src/index.ts:138-139 | an event is merged exactly when it is some calendar's event tagged with that calendar |
| Import.Merge | src/index.ts:138-139 | every merged event carries the id of a calendar that answered, and nothing is merged exactly when every calendar returned no events |
| Import.CollectErrors | src/index.ts:154 | no kept error is empty |
| Import.ErrorsAreFailures | src/index.ts:124-154 | the errors are exactly the failed calendars' error lines, in calendar order |
| Import.KeptEvents | src/index.ts:162 | an event is kept exactly when skip-free is off or it is not transparent |
| Import.KeptNone | src/index.ts:162 | with skip-free on, a day of transparent events keeps none |
| Import.KeptAll | src/index.ts:162 | with skip-free off, every event is kept |
| Import.KeptSorted | src/index.ts:162 | the filter keeps the sorted order |
| Import.Lines | src/index.ts:163 | one line per event, formatted with the configured template and link flag |
| Import.Assemble | src/index.ts:156-165 | no events give the empty-day line then the errors; otherwise one line per kept event, then the errors |
| Import.FetchGoogleCalendar | src/index.ts:75-92 | without a token, only the login error; without calendars, only the configuration error |
| Import.NoTokenNoRequest | src/index.ts:75-78 | without a token the answer is the login error, whatever the calendar service would answer |
| Import.OnlyConfiguredCalendars | src/index.ts:109-123 | the import depends only on the answers for the configured calendars |
| Import.ImportLines | src/index.ts:109-165 | the whole import: the merged and sorted events filtered and formatted, then one error per failed calendar, or the empty-day line then the errors |
| Import.ImportedEvents | src/index.ts:137-163 | the imported events are in comparator order, survive the filter, and carry an answering calendar's id |
| Import.AllFreeDayIsEmpty | src/index.ts:157-165 | with skip-free on, a day of only free events and no error writes no line at all |
| Import.NoSkipListsAll | src/index.ts:160-165 | with skip-free off, every event is listed, then the errors |
| AddEvent.ChildEntries | src/index.ts:287-294 | one entry per child block, in order |
| AddEvent.KeyValue | src/index.ts:288 | a child has no value exactly when its text has no `::`; key and value are trimmed |
| AddEvent.Props | src/index.ts:284-296 | the focused block sets `summary` and each child's lowercased key, and nothing else |
| AddEvent.KeyValueSplit | src/index.ts:288 | a child `key:: value` gives the trimmed key and the trimmed value |
| AddEvent.KeyValueBare | src/index.ts:288 | a child without `::` gives its trimmed text as key and no value |
| AddEvent.NewEventProps | src/index.ts:282-305 | without a focused block the dialog opens with the defaults and no block |
| AddEvent.BlockUidKept | src/index.ts:282-298 | the focused block's uid reaches the dialog, and no child can overwrite it, keys being lowercased |
| AddEvent.LowerIsNotBlockUid | src/index.ts:289 | no lowercased key is `blockUid` |
| AddEvent.FocusedSummary | src/index.ts:284-285 | with a focused block, the summary is the block's text unless a `summary::` child sets it |
| AddEvent.ChildSets | src/index.ts:286-294 | a property set by children takes the value of the last child that sets it |
| AddEvent.ChildrenWin | src/index.ts:284-305 | what the children set wins over the defaults and the block's text |
| AddEvent.DefaultStays | src/index.ts:298-304 | a default no child overrides stays: from now for thirty minutes, empty description and location |
| AddEvent.FromEntriesAt | src/index.ts:286 | an entry no later entry shares a key with gives that key its value |
| AddEvent.FromEntries | src/index.ts:286 | the keys set are exactly the entries' keys |
| Token.SelectOauth | src/util.ts:11-13 | the legacy credential is used exactly when it exists and is not `{}`; otherwise the labelled one |
| Token.NoOauthNoRefresh | src/util.ts:14-77 | a `{}` credential resolves to the empty token, with no refresh and no write |
| Token.RefreshIffExpired | src/util.ts:15-74 | a refresh happens exactly when the token's age in seconds exceeds its lifetime; otherwise the stored token is returned and nothing is written |
| Token.WholeSeconds | src/util.ts:17-20 | the age in whole seconds is the milliseconds divided by 1000, truncated toward zero |
| Token.TokenAge | src/util.ts:17-20 | the age is the whole seconds elapsed since the issue time, the epoch when the time is absent or zero |
| Token.Expired | src/util.ts:21 | once issued, a token has expired exactly when it has a lifetime and a whole second past it has gone by |
| Token.Decide | src/util.ts:10-21 | not logged in exactly when the credential in use is `{}`; a refresh is of the legacy credential exactly when that one is set and not `{}` |
| Token.GetAccessToken | src/util.ts:10-77 | `{}` gives the empty token and no write; without a refresh nothing is written; a refresh writes under the two credential keys only |
| Token.AgeTruncates | src/util.ts:17-21 | a token is as old as its completed seconds: one millisecond short of the next second does not count |
| Token.NoTimeCountsFromEpoch | src/util.ts:16-20 | without an issue time, the age counts from the epoch |
| Token.RefreshedData | src/util.ts:31 | the saved data is the old refresh token overlaid with every field of the refresh answer |
| Token.UpdateEntries | src/util.ts:39-49 | the list update keeps the list's length |
| Token.UpdateEntriesSpec | src/util.ts:39-49 | only the entry with the credential's uid is replaced, keeping its uid and text with new data and the given time; the others are unchanged |
| Token.UpdateEntriesIdempotent | src/util.ts:39-49 | updating twice is updating once |
| Token.UpdateEntriesAbsent | src/util.ts:39-49 | a list without the uid is left unchanged |
| Token.StoredListWrites | src/util.ts:32-51 | with a stored list: the legacy key removed when migrating, and the updated list stored under `oauth-google` |
| Token.BlockWrites | src/util.ts:52-70 | without a stored list: the credential's block gets the new data, and a legacy block is moved under a new `oauth` block |
| Token.RefreshStoresList | src/util.ts:27-72 | a refresh with a stored list returns the new access token and stores the updated list, stamped with the clock read after the answer; the legacy key is removed and no block is touched |
| Token.RefreshUpdatesBlock | src/util.ts:27-72 | a refresh without a stored list rewrites the credential's block, moves a legacy one, and leaves storage alone |
| EventDialog.GetSubTree | src/CreateEventDialog.tsx:49-53 | the node found has the key, ignoring case; an empty node when none does |
| EventDialog.CalendarRefs | src/CreateEventDialog.tsx:54-57 | one calendar per child of `calendars`, its text, with its first child's text as the account when it has children |
| EventDialog.GetCalendarIds | src/CreateEventDialog.tsx:45-57 | a configuration without an `import` node configures no calendar |
| EventDialog.Offered | src/CreateEventDialog.tsx:79-82 | the dialog opened for a calendar offers only that one; otherwise the configured ones, none without an `import` node |
| EventDialog.InitialCalendarAsWritten | src/CreateEventDialog.tsx:83-85 | as written, the choice fails exactly on an empty list, and is never empty when it succeeds |
| EventDialog.InitialCalendarAsWrittenThrows | src/CreateEventDialog.tsx:79-85 | as written, opening the dialog with no calendar configured reads past the end of an empty list |
| EventDialog.InitialCalendar | src/CreateEventDialog.tsx:83-85 | the first calendar offered, or `primary` when there is none or its id is empty; never empty |
| EventDialog.InitialCalendarAgrees | src/CreateEventDialog.tsx:83-85 | the corrected choice agrees with the code wherever the code does not throw, and the code throws exactly on an empty list |
| EventDialog.AccountFor | src/CreateEventDialog.tsx:175 | no account when no offered calendar has the id |
| EventDialog.AccountForFirst | src/CreateEventDialog.tsx:175 | the account is that of the first offered entry for the calendar |
| EventDialog.Submit | src/CreateEventDialog.tsx:177-230 | without a token: `Not logged in with Google` and no request; else a PUT to `…/events/<edit>` when editing, a POST to `…/events` when creating, with the fields and the token |
| EventDialog.EditRoot | src/CreateEventDialog.tsx:198-220 | the walk starts at the edited block, with its own children when its text contains the old summary (the text `undefined` when the event had none) and its parent's otherwise |
| EventDialog.Complete | src/CreateEventDialog.tsx:191-227 | an error leaves the dialog open with the message and writes nothing; a created event gets exactly one `Link:: <htmlLink>` child |
| EventDialog.CompleteUpdate | src/CreateEventDialog.tsx:197-222 | a saved update closes the dialog and writes, parents first, exactly the blocks around the edited one whose text changes |
| EventDialog.NewText | src/CreateEventDialog.tsx:207-210 | saving the fields the update looks for leaves a text as it is |
| EventDialog.UpdateNode | src/CreateEventDialog.tsx:206-215 | the walk only rewrites blocks, and saving the fields it looks for writes nothing, for every tree |
| EventDialog.UpdateNodeIsChanged | src/CreateEventDialog.tsx:206-215 | the walk writes, depth first, exactly the blocks whose text changes, each with its new text |
| EventDialog.UpdateChildrenIsChanged | src/CreateEventDialog.tsx:214 | the walk over the children writes the changed blocks of each child in turn |
| EventDialog.Changed | src/CreateEventDialog.tsx:211-213 | at most one write per visited node |
| EventDialog.ChangedAppend | src/CreateEventDialog.tsx:214 | the writes for two runs of blocks are the writes for each, one after the other |
| EventDialog.ChangedWrites | src/CreateEventDialog.tsx:207-213 | every write names a visited block and gives it a new text different from its old one |
| EventDialog.EditedBlockWrittenTwice | src/CreateEventDialog.tsx:198-220 | when the edited block's text lacks the old summary and it is among its parent's children, a change to it is written twice |
| EventDialog.UnchangedWritesNothing | src/CreateEventDialog.tsx:207-213 | saving the fields the update looks for writes nothing |
| EventDialog.SavedLinkIrrelevant | src/CreateEventDialog.tsx:207-210 | the saved event's link plays no part in an update |
| EventDialog.EmptyFieldsPrepend | src/CreateEventDialog.tsx:207-210 | old fields that are present but empty (`""`) match at the start of every text, so the new location, description and summary are put in front |
| EventDialog.AbsentFieldsKeepText | src/CreateEventDialog.tsx:199-210 | an event without summary, description and location makes the update look for the text `undefined`: a text without it is left as it is |
| EventDialog.ReplaceFirstAtStart | src/CreateEventDialog.tsx:208 | replacing an empty pattern puts the replacement in front |
| Strings.IndexOfSpec | src/event.ts:68 | `indexOf` finds the first occurrence, and finds one exactly when there is one |
| Strings.IndexFromSpec | src/event.ts:68 | the search from a position finds the first occurrence at or after it |
| Strings.ReplaceFirstSpec | src/event.ts:75-86 | `replace` with a text pattern replaces its first occurrence only, and changes nothing without one |
| Strings.ReplaceFirstSelf | src/CreateEventDialog.tsx:207-210 | replacing a text by itself changes nothing |
| Strings.FirstOccurrenceUnique | src/event.ts:75-86 | there is only one first occurrence |
| Strings.PrefixBeforeFirst | src/event.ts:38 | the text before the first occurrence holds no occurrence |
| Strings.AbsentChar | src/event.ts:75-98 | a pattern with a character the text lacks does not occur |
| Strings.MismatchAfterOnlyLead | src/event.ts:82-98 | a pattern whose first character occurs only at the start and which differs there is absent |
| Strings.ReplaceAll | src/event.ts:38 | without an occurrence, replacing every occurrence changes nothing |
| Strings.ReplaceAllIsSplitJoin | src/event.ts:38 | replacing every occurrence is splitting at the pattern and joining with the replacement |
| Strings.ReplaceAllSelf | src/event.ts:38 | replacing every occurrence of a text by itself changes nothing |
| Strings.SplitOn | src/index.ts:288 | `split` gives at least one piece, and no piece holds the separator |
| Strings.SplitJoinRoundTrip | src/index.ts:288 | joining the pieces with the separator gives back the text |
| Strings.TrimStart | src/index.ts:85 | the leading white space is cut, and only it |
| Strings.TrimEnd | src/index.ts:85 | the trailing white space is cut, and only it |
| Strings.Trim | src/index.ts:85-288 | the result neither starts nor ends with white space, and is empty exactly when the text is all white space |
| Strings.TrimIdempotent | src/index.ts:85-288 | trimming twice is trimming once |
| Strings.ToLower | src/index.ts:289 | lowercasing maps every character, keeping the length |
| Strings.NatToString | src/event.ts:52 | a number prints as digits |
| Strings.NatToStringValue | src/event.ts:52 | the printed digits read back as the number |
| Strings.IntToStringRoundTrip | src/event.ts:52 | the printed duration reads back as the number, negative ones included |
| Strings.NegativeRoundTrip | src/event.ts:52 | a minus sign followed by the digits reads back as the negative number |

## Left out

- Network and host calls are parameters or returned write lists. This covers
  the calendar service, the refresh service, local storage, the graph queries
  and writes, `pushBullets`, and `createBlock` with the block move that
  follows it.
- The `Promise.all` fan-out is a sequential map over the configured
  calendars. The asynchronous `setTimeout` wrappers are not modelled.
- Date handling is not modelled: `date-fns` formatting is the `tf`
  parameter; `startOfDay`, `endOfDay`, `formatRFC3339` and the page-title
  date are left out, as are time zones and the request's query string.
  Times are whole minutes, or milliseconds in `Token`. Two different
  `dateTime` texts for the same instant are not told apart from the same
  text.
- `chrono-node`'s `parseDate` is the `parse` parameter of `AddEvent`.
- ImportOrder.CompareText: `localeCompare` depends on the locale; the model
  takes the lexicographic order on Unicode scalar values (Dafny's `char`),
  which is a total order as the locale's is. Above U+FFFF it differs from an
  order on UTF-16 code units.
- `$` replacement patterns in `String.prototype.replace` are assumed absent
  from the replacement texts.
- Case-insensitive matching (`/…/i`, `toLowerCase`) covers ASCII letters only.
- JSON is a map from keys to texts. `JSON.stringify`, `JSON.parse`'s
  exceptions and non-text values are not modelled, nor is a credential
  block's `node` being absent, which the model reads as no time and no uid.
- `getSubTree` and `getBasicTreeByParentUid` belong to a library that is not
  part of this model. EventDialog.GetSubTree takes `getSubTree` to find the
  first node whose trimmed text equals the key, ignoring case, and to give an
  empty node otherwise.
- `encodeURIComponent` is a parameter of EventDialog.Submit.
- EventDialog.Complete: a rejected request's message is a text. The source
  reads it from an optional chain that may give `undefined`; that case is
  not modelled.
- EventDialog.Complete: a saved event whose fields come back `undefined`
  (which `replace` would print as `undefined`) is not modelled.
- The dialog's React state, date inputs and calendar menu are not modelled.
  Neither are the rest of src/index.ts's module state (`textareaRef`, the
  `eventUids` cache and its refresh), `loadBlockUid`, the button and
  command-palette registration, the edit-icon click handler, the smartblock
  command, and src/CalendarConfig.tsx.
- Event.ResolveAttendees: its own contract states only the empty case. The
  rendering of each attendee and the `, ` join are stated by
  Event.ResolveAttendeesCons and Event.RenderAttendeeSplitJoin.
- Token.UpdateEntries: its own contract states only the length. What
  happens to each entry is stated by Token.UpdateEntriesSpec.
- Token.NoTimeCountsFromEpoch: stated for a non-negative clock and lifetime
  only.
- Token.Expired: its contract covers a clock at or after the issue time
  only. Before it, the age is not positive, which Token.TokenAge states.
- StartArgumentTemplate: stated for formats without `{`. A `{` that forms
  no placeholder with the closing brace renders the same way; that is not
  proved.
- EndArgumentTemplate: stated for formats without `{`, as StartArgumentTemplate.
- StartAllDay: stated for formats without `{`, as StartArgumentTemplate.
- EndAllDay: stated for formats without `{`, as StartArgumentTemplate.

## Findings

| source | as written | input that shows it | evidently intended | confidence | as-written member | corrected member |
|---|---|---|---|---|---|---|
| src/CreateEventDialog.tsx:83-85 | `calendarIds[0].calendar \|\| "primary"` reads the first configured calendar without checking that there is one | the dialog opened without a given calendar, on a configuration page with no `import` / `calendars` entries, so that `getCalendarIds()` is empty: `calendarIds[0]` is `undefined` and reading `.calendar` throws | fall back to `primary` when no calendar is configured | not executed | EventDialog.InitialCalendarAsWrittenThrows | EventDialog.InitialCalendar |
