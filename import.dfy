/**
  The calendar import, `fetchGoogleCalendar` in src/index.ts: from the
  configuration page to the lines pushed into the daily note. The settings
  are read from the configuration tree (or the legacy key-value settings),
  each configured calendar's events are requested, the answers are merged,
  tagged with their calendar, sorted, filtered and formatted, and the
  failures are appended as error lines.

  The access token, the configuration and the answers of the calendar
  service are parameters: `fetch(token, id)` is what the events request for
  calendar `id` returns for the day being imported.
*/
module Import {
  import opened Wrappers
  import opened Strings
  import opened Blocks
  import opened Event
  import opened ImportOrder

  const EMPTY_MESSAGE: string := "No Events Scheduled for Today!"
  const CONFIG: string := "roam/js/google-calendar"
  const LOGIN_ERROR: string := "Error: Must log in to Google through the [[roam/js/google]] page"
  const NO_CALENDAR_ERROR: string := "Error: Could not find a calendar to import on the [[" + CONFIG + "]] page."
  /** The error message the code compares against to add the help text about public calendars. */
  const NOT_FOUND: string := "Request failed with status code 404"
  const NOT_PUBLIC_HELP: string :=
    "Could not find calendar or it's not public. For more information on how to make it public, "
    + "[visit this page](https://roamjs.com/extensions/google-calendar)"

  // ---- Settings ----

  /** The import settings: calendar ids, whether to link summaries, whether to skip free events, the template. */
  datatype Settings = Settings(calendars: seq<string>, includeLink: bool, skipFree: bool, format: string)

  /** `/p/i.test(n.text)` for one of the setting names. */
  predicate Names(n: Node, p: string) {
    ContainsIgnoringCase(n.text, p)
  }

  /** `nodes.find(n => /p/i.test(n.text))`: the first node whose text mentions `p`, ignoring case. */
  function FindNamed(nodes: seq<Node>, p: string): (r: Option<Node>)
    ensures r.Some? ==> r.value in nodes && Names(r.value, p)
    ensures r.None? ==> forall n :: n in nodes ==> !Names(n, p)
  {
    if nodes == [] then None
    else if Names(nodes[0], p) then Some(nodes[0])
    else FindNamed(nodes[1..], p)
  }

  /** `find` returns the leftmost match. */
  lemma {:induction false} FindNamedFirst(nodes: seq<Node>, p: string, k: nat)
    requires k < |nodes| && Names(nodes[k], p)
    ensures FindNamed(nodes, p).Some?
    ensures exists j :: 0 <= j <= k && FindNamed(nodes, p) == Some(nodes[j]) && forall i :: 0 <= i < j ==> !Names(nodes[i], p)
  {
    if !Names(nodes[0], p) {
      FindNamedFirst(nodes[1..], p, k - 1);
      var j :| 0 <= j <= k - 1 && FindNamed(nodes[1..], p) == Some(nodes[1..][j])
        && forall i :: 0 <= i < j ==> !Names(nodes[1..][i], p);
      assert FindNamed(nodes, p) == Some(nodes[j + 1]);
      forall i | 0 <= i < j + 1 ensures !Names(nodes[i], p) {
        if i > 0 { assert nodes[i] == nodes[1..][i - 1]; }
      }
    }
  }

  /** `nodes.some(n => /p/i.test(n.text))`. */
  predicate AnyNamed(nodes: seq<Node>, p: string) {
    exists n :: n in nodes && Names(n, p)
  }

  /** The texts of some nodes, in order. */
  function Texts(nodes: seq<Node>): (r: seq<string>)
    ensures |r| == |nodes| && forall k :: 0 <= k < |nodes| ==> r[k] == nodes[k].text
  {
    seq(|nodes|, k requires 0 <= k < |nodes| => nodes[k].text)
  }

  /** A legacy setting, trimmed, or `None` when the legacy page does not set it. */
  function Legacy(legacy: map<string, string>, key: string): (r: Option<string>)
    ensures key in legacy <==> r.Some?
    ensures r.Some? ==> r.value == Trim(legacy[key])
  {
    if key in legacy then Some(Trim(legacy[key])) else None
  }

  /**
    The calendar ids: the texts of the children of the `calendars` node of the
    `import` node when there is such a node, even one without children (an
    empty array is truthy); otherwise the legacy `Google Calendar` setting,
    trimmed, unless it is absent or empty.
  */
  function CalendarIds(configTree: seq<Node>, legacy: map<string, string>): (r: seq<string>)
    ensures FindNamed(configTree, "import").None? ==>
      |r| <= 1 && forall id :: id in r ==> id != "" && "Google Calendar" in legacy && id == Trim(legacy["Google Calendar"])
  {
    var importNode := FindNamed(configTree, "import");
    var listed := if importNode.Some? then FindNamed(importNode.value.children, "calendars") else None;
    match listed
    case Some(n) => Texts(n.children)
    case None =>
      match Legacy(legacy, "Google Calendar")
      case Some(id) => if id != "" then [id] else []
      case None => []
  }

  /** A flag: named by a child of the `import` node, or set to `true` on the legacy page. */
  function Flag(importNode: Option<Node>, name: string, legacy: map<string, string>, key: string): (r: bool)
    ensures r <==> (importNode.Some? && AnyNamed(importNode.value.children, name)) || (key in legacy && Trim(legacy[key]) == "true")
  {
    (importNode.Some? && AnyNamed(importNode.value.children, name)) || Legacy(legacy, key) == Some("true")
  }

  /**
    The template: the trimmed text of the first child of the `format` node of
    the `import` node; when that is missing or empty, the legacy `Format`
    setting, trimmed; `""` (the default layout) when neither gives one.
  */
  function TemplateSetting(importNode: Option<Node>, legacy: map<string, string>): (r: string)
    ensures Trimmed(r)
  {
    var formatNode := if importNode.Some? then FindNamed(importNode.value.children, "format") else None;
    var configured := if formatNode.Some? && formatNode.value.children != [] then Trim(formatNode.value.children[0].text) else "";
    if configured != "" then configured else Legacy(legacy, "Format").GetOr("")
  }

  /** All the settings `fetchGoogleCalendar` reads before requesting anything. */
  function ReadSettings(configTree: seq<Node>, legacy: map<string, string>): (r: Settings)
    ensures var importNode := FindNamed(configTree, "import");
      && (r.includeLink <==>
            (importNode.Some? && AnyNamed(importNode.value.children, "include event link"))
            || ("Include Event Link" in legacy && Trim(legacy["Include Event Link"]) == "true"))
      && (r.skipFree <==>
            (importNode.Some? && AnyNamed(importNode.value.children, "skip free"))
            || ("Skip Free" in legacy && Trim(legacy["Skip Free"]) == "true"))
    ensures Trimmed(r.format)
  {
    var importNode := FindNamed(configTree, "import");
    var includeLink := Flag(importNode, "include event link", legacy, "Include Event Link");
    var skipFree := Flag(importNode, "skip free", legacy, "Skip Free");
    var format := TemplateSetting(importNode, legacy);
    Settings(CalendarIds(configTree, legacy), includeLink, skipFree, format)
  }

  /** A `calendars` node lists the calendars, whatever the legacy page says, and none if it has no children. */
  lemma CalendarIdsListed(configTree: seq<Node>, legacy: map<string, string>, importNode: Node, listed: Node)
    requires FindNamed(configTree, "import") == Some(importNode)
    requires FindNamed(importNode.children, "calendars") == Some(listed)
    ensures |CalendarIds(configTree, legacy)| == |listed.children|
    ensures forall k :: 0 <= k < |listed.children| ==> CalendarIds(configTree, legacy)[k] == listed.children[k].text
  {
  }

  /** Without a `calendars` node, the ids are the trimmed legacy setting, dropped when empty. */
  lemma CalendarIdsFallBack(configTree: seq<Node>, legacy: map<string, string>)
    requires forall n :: n in configTree && Names(n, "import") ==> forall c :: c in n.children ==> !Names(c, "calendars")
    ensures "Google Calendar" in legacy && Trim(legacy["Google Calendar"]) != "" ==>
              CalendarIds(configTree, legacy) == [Trim(legacy["Google Calendar"])]
    ensures !("Google Calendar" in legacy && Trim(legacy["Google Calendar"]) != "") ==>
              CalendarIds(configTree, legacy) == []
  {
    var importNode := FindNamed(configTree, "import");
    if importNode.Some? {
      assert FindNamed(importNode.value.children, "calendars").None?;
    }
  }

  /** The template from the tree wins over the legacy one unless it is empty after trimming. */
  lemma TemplateChoice(importNode: Node, legacy: map<string, string>, formatNode: Node)
    requires FindNamed(importNode.children, "format") == Some(formatNode) && formatNode.children != []
    ensures Trim(formatNode.children[0].text) != "" ==>
              TemplateSetting(Some(importNode), legacy) == Trim(formatNode.children[0].text)
    ensures Trim(formatNode.children[0].text) == "" && "Format" in legacy ==>
              TemplateSetting(Some(importNode), legacy) == Trim(legacy["Format"])
    ensures Trim(formatNode.children[0].text) == "" && "Format" !in legacy ==>
              TemplateSetting(Some(importNode), legacy) == ""
  {
  }

  // ---- Requests and their results ----

  /**
    What the events request for one calendar comes back with: the events, or
    a failure with the message of the error body (`None` when the body has
    none).
  */
  datatype Response = Loaded(items: seq<Event>) | Failed(message: Option<string>)

  /** One calendar's settled request: `{items, calendar, error}`, the error being `""` on success. */
  datatype Fetched = Fetched(items: seq<Event>, calendar: string, error: string)

  /**
    The error line for a failed calendar: the not-found message becomes the
    help text about public calendars; any other message is kept, and a missing
    one shows as `undefined`, as template interpolation prints it.
  */
  function SourceError(id: string, message: Option<string>): (r: string)
    ensures |r| >= |"Error for calendar " + id + ": "| && r[..|"Error for calendar " + id + ": "|] == "Error for calendar " + id + ": "
    ensures message == Some(NOT_FOUND) ==> r == "Error for calendar " + id + ": " + NOT_PUBLIC_HELP
    ensures message.Some? && message.value != NOT_FOUND ==> r == "Error for calendar " + id + ": " + message.value
    ensures message.None? ==> r == "Error for calendar " + id + ": undefined"
  {
    var prefix := "Error for calendar " + id + ": ";
    var detail := match message
      case None => "undefined"
      case Some(m) => if m == NOT_FOUND then NOT_PUBLIC_HELP else m;
    assert (prefix + detail)[..|prefix|] == prefix;
    prefix + detail
  }

  /** One request settled into `{items, calendar, error}`. */
  function Settle(id: string, response: Response): (r: Fetched)
    ensures r.calendar == id
    ensures response.Loaded? ==> r.items == response.items && r.error == ""
    ensures response.Failed? ==> r.items == [] && r.error == SourceError(id, response.message)
  {
    match response
    case Loaded(items) => Fetched(items, id, "")
    case Failed(message) => Fetched([], id, SourceError(id, message))
  }

  /** Every configured calendar requested, in order; `Promise.all` keeps that order. */
  function SettleAll(ids: seq<string>, token: string, fetch: (string, string) -> Response): (r: seq<Fetched>)
    ensures |r| == |ids| && forall k :: 0 <= k < |ids| ==> r[k] == Settle(ids[k], fetch(token, ids[k]))
  {
    seq(|ids|, k requires 0 <= k < |ids| => Settle(ids[k], fetch(token, ids[k])))
  }

  // ---- Merge, errors, assembly ----

  /** One calendar's events, each tagged with that calendar's id. */
  function Tagged(r: Fetched): (t: seq<Event>)
    ensures |t| == |r.items|
    ensures forall i :: 0 <= i < |t| ==> t[i] == r.items[i].(calendar := r.calendar)
  {
    seq(|r.items|, i requires 0 <= i < |r.items| => r.items[i].(calendar := r.calendar))
  }

  /** `rs.flatMap(r => r.items.map(i => ({...i, calendar: r.calendar})))`. */
  function Merge(rs: seq<Fetched>): (r: seq<Event>)
    ensures forall x :: x in r ==> exists j :: 0 <= j < |rs| && x.calendar == rs[j].calendar
    ensures r == [] <==> forall j :: 0 <= j < |rs| ==> rs[j].items == []
  {
    if rs == [] then []
    else
      assert forall j :: 1 <= j < |rs| ==> rs[1..][j - 1] == rs[j];
      Tagged(rs[0]) + Merge(rs[1..])
  }

  /** An event is merged exactly when it is some calendar's event tagged with that calendar. */
  lemma {:induction false} MergeMembers(rs: seq<Fetched>, x: Event)
    ensures x in Merge(rs) <==>
      exists j, i :: 0 <= j < |rs| && 0 <= i < |rs[j].items| && x == rs[j].items[i].(calendar := rs[j].calendar)
  {
    if rs != [] {
      MergeMembers(rs[1..], x);
      if x in Tagged(rs[0]) {
        var i :| 0 <= i < |Tagged(rs[0])| && Tagged(rs[0])[i] == x;
        assert x == rs[0].items[i].(calendar := rs[0].calendar);
      }
      if x in Merge(rs[1..]) {
        var j, i :| 0 <= j < |rs[1..]| && 0 <= i < |rs[1..][j].items| && x == rs[1..][j].items[i].(calendar := rs[1..][j].calendar);
        assert rs[1..][j] == rs[j + 1];
      }
      if exists j, i :: 0 <= j < |rs| && 0 <= i < |rs[j].items| && x == rs[j].items[i].(calendar := rs[j].calendar) {
        var j, i :| 0 <= j < |rs| && 0 <= i < |rs[j].items| && x == rs[j].items[i].(calendar := rs[j].calendar);
        if j == 0 {
          assert Tagged(rs[0])[i] == x;
        } else {
          assert rs[1..][j - 1] == rs[j];
        }
      }
    }
  }

  /** `rs.map(r => r.error).filter(e => !!e)`: the non-empty error strings, in calendar order. */
  function CollectErrors(rs: seq<Fetched>): (r: seq<string>)
    ensures forall k :: 0 <= k < |r| ==> r[k] != ""
  {
    if rs == [] then []
    else (if rs[0].error != "" then [rs[0].error] else []) + CollectErrors(rs[1..])
  }

  /** The error lines a list of calendars gives: one per failed request, in calendar order. */
  function Failures(ids: seq<string>, token: string, fetch: (string, string) -> Response): seq<string> {
    if ids == [] then []
    else
      (match fetch(token, ids[0])
       case Failed(message) => [SourceError(ids[0], message)]
       case Loaded(_) => [])
      + Failures(ids[1..], token, fetch)
  }

  /** No failure is lost to the filter on empty errors: there is one error line per failed calendar. */
  lemma {:induction false} ErrorsAreFailures(ids: seq<string>, token: string, fetch: (string, string) -> Response)
    ensures CollectErrors(SettleAll(ids, token, fetch)) == Failures(ids, token, fetch)
  {
    if ids != [] {
      ErrorsAreFailures(ids[1..], token, fetch);
      assert SettleAll(ids, token, fetch)[1..] == SettleAll(ids[1..], token, fetch);
    }
  }

  /** Whether an event survives the skip-free filter: only transparent ("free") events are dropped, and only when asked to. */
  predicate Kept(e: Event, skipFree: bool) {
    !skipFree || e.transparency != "transparent"
  }

  /** `events.filter(e => !skipFree || e.transparency !== "transparent")`. */
  function KeptEvents(events: seq<Event>, skipFree: bool): (r: seq<Event>)
    ensures |r| <= |events|
    ensures forall x :: x in r <==> x in events && Kept(x, skipFree)
  {
    if events == [] then []
    else (if Kept(events[0], skipFree) then [events[0]] else []) + KeptEvents(events[1..], skipFree)
  }

  /** When every event is free and skip-free is on, nothing is kept. */
  lemma {:induction false} KeptNone(events: seq<Event>)
    requires forall x :: x in events ==> x.transparency == "transparent"
    ensures KeptEvents(events, true) == []
  {
    if events != [] {
      assert forall x :: x in events[1..] ==> x in events;
      KeptNone(events[1..]);
    }
  }

  /** Without skip-free, nothing is filtered out. */
  lemma {:induction false} KeptAll(events: seq<Event>)
    ensures KeptEvents(events, false) == events
  {
    if events != [] {
      KeptAll(events[1..]);
    }
  }

  /** The filter keeps the order of the events it keeps. */
  lemma {:induction false} KeptSorted(events: seq<Event>, skipFree: bool)
    requires Sorted(events)
    ensures Sorted(KeptEvents(events, skipFree))
  {
    if events != [] {
      KeptSorted(events[1..], skipFree);
      var t := KeptEvents(events[1..], skipFree);
      assert forall j :: 0 <= j < |t| ==> t[j] in events[1..];
      forall y | y in t ensures CompareEvents(events[0], y) <= 0 {
        var j :| 0 <= j < |events[1..]| && events[1..][j] == y;
        assert events[j + 1] == y;
      }
      if Kept(events[0], skipFree) {
        SortedCons(events[0], t);
      }
    }
  }

  /** Each kept event rendered through the template, without a custom formatter. */
  function Lines(events: seq<Event>, settings: Settings, tf: TimeFormatter): (r: seq<string>)
    ensures |r| == |events|
    ensures forall k :: 0 <= k < |events| ==> r[k] == FormatEvent(events[k], settings.format, settings.includeLink, None, tf)
  {
    seq(|events|, k requires 0 <= k < |events| => FormatEvent(events[k], settings.format, settings.includeLink, None, tf))
  }

  /**
    The output lines: the empty-day message and the errors when no calendar
    returned an event; otherwise the kept events' lines followed by the errors.
    The emptiness test comes before the filter.
  */
  function Assemble(events: seq<Event>, errors: seq<string>, settings: Settings, tf: TimeFormatter): (r: seq<string>)
    ensures events == [] ==> r == [EMPTY_MESSAGE] + errors
    ensures events != [] ==> |r| == |KeptEvents(events, settings.skipFree)| + |errors| && r[|r| - |errors|..] == errors
  {
    if events == [] then [EMPTY_MESSAGE] + errors
    else Lines(KeptEvents(events, settings.skipFree), settings, tf) + errors
  }

  /** `fetchGoogleCalendar`: the lines an import produces. */
  function FetchGoogleCalendar(
    token: string, configTree: seq<Node>, legacy: map<string, string>,
    fetch: (string, string) -> Response, tf: TimeFormatter): (r: seq<string>)
    ensures token == "" ==> r == [LOGIN_ERROR]
    ensures token != "" && CalendarIds(configTree, legacy) == [] ==> r == [NO_CALENDAR_ERROR]
  {
    if token == "" then [LOGIN_ERROR]
    else
      var settings := ReadSettings(configTree, legacy);
      if settings.calendars == [] then [NO_CALENDAR_ERROR]
      else
        var rs := SettleAll(settings.calendars, token, fetch);
        Assemble(SortEvents(Merge(rs)), CollectErrors(rs), settings, tf)
  }

  // ---- Properties of the import ----

  /** Without a token nothing is requested: the answer does not depend on the calendar service. */
  lemma NoTokenNoRequest(configTree: seq<Node>, legacy: map<string, string>,
                         f: (string, string) -> Response, g: (string, string) -> Response, tf: TimeFormatter)
    ensures FetchGoogleCalendar("", configTree, legacy, f, tf) == FetchGoogleCalendar("", configTree, legacy, g, tf) == [LOGIN_ERROR]
  {
  }

  /**
    Only the configured calendars are requested, with the caller's token: two
    services that agree on those requests give the same lines.
  */
  lemma OnlyConfiguredCalendars(token: string, configTree: seq<Node>, legacy: map<string, string>,
                                f: (string, string) -> Response, g: (string, string) -> Response, tf: TimeFormatter)
    requires forall id :: id in CalendarIds(configTree, legacy) ==> f(token, id) == g(token, id)
    ensures FetchGoogleCalendar(token, configTree, legacy, f, tf) == FetchGoogleCalendar(token, configTree, legacy, g, tf)
  {
    var ids := CalendarIds(configTree, legacy);
    assert SettleAll(ids, token, f) == SettleAll(ids, token, g) by {
      forall k | 0 <= k < |ids| ensures SettleAll(ids, token, f)[k] == SettleAll(ids, token, g)[k] {
        assert ids[k] in ids;
      }
    }
  }

  /**
    When some calendar is configured and the token is present, the lines are
    the sorted, tagged, kept events rendered through the template, in order,
    followed by one error line per failed calendar; or, when no calendar
    returned an event, the empty-day message followed by those error lines.
  */
  lemma ImportLines(token: string, configTree: seq<Node>, legacy: map<string, string>,
                    fetch: (string, string) -> Response, tf: TimeFormatter)
    requires token != "" && CalendarIds(configTree, legacy) != []
    ensures var settings := ReadSettings(configTree, legacy);
      var rs := SettleAll(settings.calendars, token, fetch);
      var events := SortEvents(Merge(rs));
      var errors := Failures(settings.calendars, token, fetch);
      var r := FetchGoogleCalendar(token, configTree, legacy, fetch, tf);
      && (events == [] ==> r == [EMPTY_MESSAGE] + errors)
      && (events != [] ==> r == Lines(KeptEvents(events, settings.skipFree), settings, tf) + errors)
  {
    var settings := ReadSettings(configTree, legacy);
    ErrorsAreFailures(settings.calendars, token, fetch);
  }

  /** Every event line comes from a kept event of a configured calendar, and they come in comparator order. */
  lemma ImportedEvents(rs: seq<Fetched>, skipFree: bool)
    ensures var kept := KeptEvents(SortEvents(Merge(rs)), skipFree);
      && Sorted(kept)
      && forall x :: x in kept ==> Kept(x, skipFree) && exists j :: 0 <= j < |rs| && x.calendar == rs[j].calendar
  {
    var sorted := SortEvents(Merge(rs));
    SortEventsSorted(Merge(rs));
    KeptSorted(sorted, skipFree);
    forall x | x in KeptEvents(sorted, skipFree)
      ensures exists j :: 0 <= j < |rs| && x.calendar == rs[j].calendar
    {
      assert x in multiset(sorted);
      assert x in Merge(rs);
    }
  }

  /**
    The emptiness test comes before the skip-free filter: a day whose every
    event is free, imported with skip-free and without failures, gives no
    line at all rather than the empty-day message.
  */
  lemma AllFreeDayIsEmpty(events: seq<Event>, settings: Settings, tf: TimeFormatter)
    requires events != [] && settings.skipFree
    requires forall x :: x in events ==> x.transparency == "transparent"
    ensures Assemble(events, [], settings, tf) == []
  {
    KeptNone(events);
  }

  /** An all-free day with skip-free off lists every event. */
  lemma NoSkipListsAll(events: seq<Event>, errors: seq<string>, settings: Settings, tf: TimeFormatter)
    requires events != [] && !settings.skipFree
    ensures Assemble(events, errors, settings, tf) == Lines(events, settings, tf) + errors
  {
    KeptAll(events);
  }
}
