/**
  The event template formatter (src/event.ts): one calendar event becomes one
  line of text, by a fixed sequence of substitution passes over a template.
  Six deprecated `/Token` passes come first, then the `{tag}` and
  `{tag:argument}` passes; every pass replaces at most its first match, and
  each pass scans the text left by the passes before it, including text those
  passes inserted. An empty template falls back to a fixed layout.
*/
module Event {
  import opened Wrappers
  import opened Strings

  /** The time format used when a template gives none: hours, minutes, AM/PM. */
  const DEFAULT_DATE_FORMAT: string := "hh:mm a"
  const ALL_DAY: string := "All Day"
  /** The duration, in minutes, reported when either end of an event has no time. */
  const ALL_DAY_MINUTES: int := 24 * 60

  /** An attendee; an absent display name is the empty string. */
  datatype Attendee = Attendee(displayName: string, email: string)

  /**
    A calendar event as the calendar service returns it, tagged with the id of
    the calendar it came from. Absent text fields are the empty string (the
    source only ever tests them for truthiness); an absent start or end time,
    which is how an all-day event shows, is `None`. Times are in minutes.
  */
  datatype Event = Event(
    transparency: string,
    summary: string,
    htmlLink: string,
    hangoutLink: string,
    location: string,
    attendees: seq<Attendee>,
    start: Option<int>,
    end: Option<int>,
    visibility: string,
    calendar: string)

  /** Renders an instant with a date-fns format string; it is a parameter of the model. */
  type TimeFormatter = (int, string) -> string

  /** A caller-supplied renderer for the `{custom}` placeholder. */
  type EventFormatter = Event -> string

  /** A time or `All Day`; an empty format means the default one. */
  function ResolveDate(when: Option<int>, fmt: string, tf: TimeFormatter): (r: string)
    ensures when.None? ==> r == ALL_DAY
  {
    match when
    case None => ALL_DAY
    case Some(t) => tf(t, if fmt == "" then DEFAULT_DATE_FORMAT else fmt)
  }

  /** The display name of an attendee, or the e-mail address when it has none. */
  function AttendeeName(a: Attendee): string {
    if a.displayName != "" then a.displayName else a.email
  }

  /** One attendee rendered from `fmt` (default `NAME`), every `NAME` standing for the attendee. */
  function RenderAttendee(a: Attendee, fmt: string): string {
    ReplaceAll(if fmt == "" then "NAME" else fmt, "NAME", AttendeeName(a))
  }

  /** The attendees, each rendered from `fmt`, joined by `", "`. */
  function ResolveAttendees(attendees: seq<Attendee>, fmt: string): (r: string)
    ensures attendees == [] ==> r == ""
  {
    Join(seq(|attendees|, k requires 0 <= k < |attendees| => RenderAttendee(attendees[k], fmt)), ", ")
  }

  /** The summary text: `busy` for a private event, else the summary or `No Summary`. */
  function SummaryText(e: Event): (r: string)
    ensures r != ""
    ensures e.visibility == "private" ==> r == "busy"
    ensures e.visibility != "private" && e.summary != "" ==> r == e.summary
  {
    if e.visibility == "private" then "busy"
    else if e.summary != "" then e.summary
    else "No Summary"
  }

  /** The summary text, made a link to the event when asked to and when there is a link. */
  function LinkedSummary(e: Event, includeLink: bool): (r: string)
    ensures includeLink && e.htmlLink != "" ==> r == "[" + SummaryText(e) + "](" + e.htmlLink + ")"
    ensures !(includeLink && e.htmlLink != "") ==> r == SummaryText(e)
  {
    if includeLink && e.htmlLink != "" then "[" + SummaryText(e) + "](" + e.htmlLink + ")"
    else SummaryText(e)
  }

  function MeetLink(e: Event): string {
    if e.hangoutLink != "" then " - [Meet](" + e.hangoutLink + ")" else ""
  }

  function ZoomLink(e: Event): string {
    if e.location != "" && IndexOf(e.location, "zoom.us").Some? then " - [Zoom](" + e.location + ")" else ""
  }

  /**
    The conference-link suffix: a Meet fragment exactly when there is a hangout
    link, then a Zoom fragment exactly when the location mentions `zoom.us`.
  */
  function ConfLink(e: Event): (r: string)
    ensures e.hangoutLink == "" && !Contains(e.location, "zoom.us") ==> r == ""
    ensures e.hangoutLink != "" && !Contains(e.location, "zoom.us") ==> r == " - [Meet](" + e.hangoutLink + ")"
    ensures e.hangoutLink == "" && Contains(e.location, "zoom.us") ==> r == " - [Zoom](" + e.location + ")"
    ensures e.hangoutLink != "" && Contains(e.location, "zoom.us") ==>
              r == " - [Meet](" + e.hangoutLink + ")" + " - [Zoom](" + e.location + ")"
  {
    IndexOfSpec(e.location, "zoom.us");
    MeetLink(e) + ZoomLink(e)
  }

  /** Minutes from start to end as decimal text, or `1440` when either end has no time. */
  function ResolveDuration(e: Event): (r: string)
    ensures e.start.Some? && e.end.Some? ==> ParseInt(r) == Some(e.end.value - e.start.value)
    ensures e.start.None? || e.end.None? ==> r == "1440"
  {
    if e.start.Some? && e.end.Some? then
      IntToStringRoundTrip(e.end.value - e.start.value);
      IntToString(e.end.value - e.start.value)
    else
      IntToString(ALL_DAY_MINUTES)
  }

  /** What `{custom}` becomes: the custom formatter's text, or the placeholder itself. */
  function CustomText(custom: Option<EventFormatter>, e: Event): string {
    match custom
    case Some(f) => f(e)
    case None => "{custom}"
  }

  // ---- The `{tag:?(.*?)}` regular expressions ----

  /** A match of `{name:?(.*?)}`: where it starts, where it ends, and the captured argument. */
  datatype TagMatch = TagMatch(start: nat, end: nat, capture: string)

  /**
    Where the lazy `(.*?)}` stops when started at `c`: the first `}`, provided
    no line terminator (which `.` does not match) comes before it.
  */
  function CloseBrace(s: string, c: nat): (r: Option<nat>)
    requires c <= |s|
    decreases |s| - c
    ensures r.Some? ==> c <= r.value < |s|
  {
    if c == |s| then None
    else if s[c] == '}' then Some(c)
    else if IsLineTerminator(s[c]) then None
    else CloseBrace(s, c + 1)
  }

  /** The scan stops at a `}` with only plain characters before it, and fails only at a line break. */
  lemma {:induction false} CloseBraceSpec(s: string, c: nat)
    requires c <= |s|
    decreases |s| - c
    ensures CloseBrace(s, c).Some? ==> s[CloseBrace(s, c).value] == '}'
    ensures CloseBrace(s, c).Some? ==>
              forall k :: c <= k < CloseBrace(s, c).value ==> s[k] != '}' && !IsLineTerminator(s[k])
    ensures CloseBrace(s, c).None? ==>
              forall k :: c <= k < |s| && s[k] == '}' ==> exists m :: c <= m < k && IsLineTerminator(s[m])
  {
    if c < |s| && s[c] != '}' && !IsLineTerminator(s[c]) {
      CloseBraceSpec(s, c + 1);
    }
  }

  /** The lazy scan stops at a `}` that only plain characters precede. */
  lemma {:induction false} CloseBraceFirst(s: string, c: nat, k: nat)
    requires c <= k < |s| && s[k] == '}'
    requires forall m :: c <= m < k ==> s[m] != '}' && !IsLineTerminator(s[m])
    ensures CloseBrace(s, c) == Some(k)
    decreases k - c
  {
    if c < k { CloseBraceFirst(s, c + 1, k); }
  }

  /**
    The match of `{name:?(.*?)}` starting at index `i`, if any. The optional
    colon is taken when present; the argument runs to the first `}`.
  */
  function MatchAt(s: string, name: string, i: nat): (r: Option<TagMatch>)
    ensures r.Some? ==> r.value.start == i < r.value.end <= |s|
  {
    var open := "{" + name;
    if !OccursAt(s, open, i) then None
    else
      var j := i + |open|;
      var c := if j < |s| && s[j] == ':' then j + 1 else j;
      match CloseBrace(s, c)
      case None => None
      case Some(k) => Some(TagMatch(i, k + 1, s[c..k]))
  }

  /** A match is the text `{name:capture}`, or `{name` directly followed by the capture and `}`. */
  lemma MatchAtShape(s: string, name: string, i: nat)
    requires MatchAt(s, name, i).Some?
    ensures var m := MatchAt(s, name, i).value;
      && OccursAt(s, "{" + name, i)
      && (s[i..m.end] == "{" + name + ":" + m.capture + "}" || s[i..m.end] == "{" + name + m.capture + "}")
  {
    var open := "{" + name;
    var j := i + |open|;
    var c := if j < |s| && s[j] == ':' then j + 1 else j;
    CloseBraceSpec(s, c);
    TagSlice(s, open, i, j, c, CloseBrace(s, c).value);
  }

  /** The text from `i` to a closing brace at `k`, cut at the end `j` of the opening and the start `c` of the argument. */
  lemma TagSlice(s: string, open: string, i: nat, j: nat, c: nat, k: nat)
    requires i <= j <= c <= k < |s| && s[i..j] == open && s[k] == '}'
    requires c == j || (c == j + 1 && s[j] == ':')
    ensures c == j + 1 ==> s[i..k + 1] == open + ":" + s[c..k] + "}"
    ensures c == j ==> s[i..k + 1] == open + s[c..k] + "}"
  {
    assert s[i..k + 1] == s[i..j] + s[j..c] + s[c..k] + s[k..k + 1];
    assert s[k..k + 1] == "}";
    if c == j + 1 { assert s[j..c] == ":"; } else { assert s[j..c] == ""; }
  }

  /** The captured argument holds no `}` and no line break. */
  lemma MatchAtCapture(s: string, name: string, i: nat)
    requires MatchAt(s, name, i).Some?
    ensures var m := MatchAt(s, name, i).value;
      forall k :: 0 <= k < |m.capture| ==> m.capture[k] != '}' && !IsLineTerminator(m.capture[k])
  {
    var open := "{" + name;
    var j := i + |open|;
    var c := if j < |s| && s[j] == ':' then j + 1 else j;
    CloseBraceSpec(s, c);
    var k := CloseBrace(s, c).value;
    assert MatchAt(s, name, i).value.capture == s[c..k];
    forall m | 0 <= m < k - c ensures s[c..k][m] != '}' && !IsLineTerminator(s[c..k][m]) {
      assert s[c..k][m] == s[c + m];
    }
  }

  /** The leftmost match of `{name:?(.*?)}` at or after index `i`. */
  function FindTag(s: string, name: string, i: nat): (r: Option<TagMatch>)
    requires i <= |s|
    decreases |s| - i
    ensures r.Some? ==> i <= r.value.start < r.value.end <= |s|
  {
    if MatchAt(s, name, i).Some? then MatchAt(s, name, i)
    else if i == |s| then None
    else FindTag(s, name, i + 1)
  }

  /** `FindTag` gives the match at the leftmost index where there is one, and fails only when there is none. */
  lemma {:induction false} FindTagSpec(s: string, name: string, i: nat)
    requires i <= |s|
    decreases |s| - i
    ensures FindTag(s, name, i).Some? ==> MatchAt(s, name, FindTag(s, name, i).value.start) == FindTag(s, name, i)
    ensures FindTag(s, name, i).Some? ==> forall j: nat :: i <= j < FindTag(s, name, i).value.start ==> MatchAt(s, name, j).None?
    ensures FindTag(s, name, i).None? ==> forall j: nat :: i <= j ==> MatchAt(s, name, j).None?
  {
    if MatchAt(s, name, i).None? && i < |s| {
      FindTagSpec(s, name, i + 1);
    }
  }

  /** A text without the opening `{name` has no match of the tag. */
  lemma NoOpenNoTag(s: string, name: string, open: string)
    requires open == "{" + name && IndexOf(s, open).None?
    ensures FindTag(s, name, 0).None?
  {
    IndexOfSpec(s, open);
    NoMatchFrom(s, name, 0);
  }

  lemma {:induction false} NoMatchFrom(s: string, name: string, i: nat)
    requires i <= |s| && forall j: nat :: !OccursAt(s, "{" + name, j)
    decreases |s| - i
    ensures FindTag(s, name, i).None?
  {
    if i < |s| {
      NoMatchFrom(s, name, i + 1);
    }
  }

  // ---- Substitution passes ----

  /**
    One substitution pass: a literal token replaced (first occurrence) by fixed
    text, or a tag whose first match is replaced by a rendering of its argument.
  */
  datatype Pass = Literal(token: string, text: string) | Tag(name: string, kind: TagKind)

  /** What a tag's argument is rendered into: the attendee list, or a time, in that format. */
  datatype TagKind = AttendeeList(attendees: seq<Attendee>) | Time(when: Option<int>, tf: TimeFormatter)

  function Render(kind: TagKind, arg: string): string {
    match kind
    case AttendeeList(attendees) => ResolveAttendees(attendees, arg)
    case Time(when, tf) => ResolveDate(when, arg, tf)
  }

  function Apply(s: string, p: Pass): string {
    match p
    case Literal(token, text) => ReplaceFirst(s, token, text)
    case Tag(name, kind) =>
      match FindTag(s, name, 0)
      case None => s
      case Some(m) => s[..m.start] + Render(kind, m.capture) + s[m.end..]
  }

  /** The passes applied one after another, each to the text the previous one left. */
  function ApplyAll(s: string, ps: seq<Pass>): string
    decreases |ps|
  {
    if ps == [] then s else ApplyAll(Apply(s, ps[0]), ps[1..])
  }

  /** The pass finds nothing to replace in `s`. */
  predicate Inert(s: string, p: Pass) {
    match p
    case Literal(token, _) => IndexOf(s, token).None?
    case Tag(name, _) => FindTag(s, name, 0).None?
  }

  lemma InertApply(s: string, p: Pass)
    requires Inert(s, p)
    ensures Apply(s, p) == s
  {
  }

  /** Passes that all find nothing leave the text as it was. */
  lemma {:induction false} ApplyAllInert(s: string, ps: seq<Pass>)
    requires forall p :: p in ps ==> Inert(s, p)
    ensures ApplyAll(s, ps) == s
    decreases |ps|
  {
    if ps != [] {
      InertApply(s, ps[0]);
      ApplyAllInert(s, ps[1..]);
    }
  }

  /** Running two lists of passes in turn is running their concatenation. */
  lemma {:induction false} ApplyAllAppend(s: string, a: seq<Pass>, b: seq<Pass>)
    ensures ApplyAll(s, a + b) == ApplyAll(ApplyAll(s, a), b)
    decreases |a|
  {
    if a == [] {
      assert a + b == b;
    } else {
      var t := Apply(s, a[0]);
      assert (a + b)[0] == a[0];
      assert (a + b)[1..] == a[1..] + b;
      assert ApplyAll(s, a + b) == ApplyAll(t, a[1..] + b);
      ApplyAllAppend(t, a[1..], b);
    }
  }

  /** The six deprecated passes, kept for old templates. */
  function LegacyPasses(e: Event, tf: TimeFormatter): seq<Pass> {
    [ Literal("/Summary", SummaryText(e)),
      Literal("/Link", e.htmlLink),
      Literal("/Hangout", e.hangoutLink),
      Literal("/Location", e.location),
      Literal("/Start Time", ResolveDate(e.start, "", tf)),
      Literal("/End Time", ResolveDate(e.end, "", tf)) ]
  }

  /** The placeholder passes that run before `{start}`. */
  function EarlyTagPasses(e: Event, includeLink: bool): seq<Pass> {
    [ Literal("{summary}", LinkedSummary(e, includeLink)),
      Literal("{link}", e.htmlLink),
      Literal("{hangout}", e.hangoutLink),
      Literal("{confLink}", ConfLink(e)),
      Literal("{location}", e.location),
      Tag("attendees", AttendeeList(e.attendees)) ]
  }

  function StartPass(e: Event, tf: TimeFormatter): Pass {
    Tag("start", Time(e.start, tf))
  }

  /** The placeholder passes that run after `{start}`. */
  function LateTagPasses(e: Event, custom: Option<EventFormatter>, tf: TimeFormatter): seq<Pass> {
    [ Tag("end", Time(e.end, tf)),
      Literal("{calendar}", e.calendar),
      Literal("{duration}", ResolveDuration(e)),
      Literal("{custom}", CustomText(custom, e)) ]
  }

  /** All seventeen passes, in the order the source chains them. */
  function Passes(e: Event, includeLink: bool, custom: Option<EventFormatter>, tf: TimeFormatter): seq<Pass> {
    LegacyPasses(e, tf) + EarlyTagPasses(e, includeLink) + [StartPass(e, tf)] + LateTagPasses(e, custom, tf)
  }

  /** The layout used when no template is configured. */
  function DefaultLayout(e: Event, includeLink: bool, tf: TimeFormatter): string {
    LinkedSummary(e, includeLink) + " (" + ResolveDate(e.start, "", tf) + " - " + ResolveDate(e.end, "", tf) + ")"
    + MeetLink(e) + ZoomLink(e)
  }

  /**
    `formatEvent`: one event rendered through a template, or through the
    default layout; a template in which no pass recognises anything comes
    back unchanged, whatever the event.
  */
  function FormatEvent(e: Event, fmt: string, includeLink: bool, custom: Option<EventFormatter>, tf: TimeFormatter): (r: string)
    ensures fmt != "" && Plain(fmt) ==> r == fmt
  {
    if fmt != "" then
      PlainPassesInert(fmt, e, includeLink, custom, tf);
      ApplyAll(fmt, Passes(e, includeLink, custom, tf))
    else DefaultLayout(e, includeLink, tf)
  }

  // ---- Which passes find something ----

  /** No deprecated token occurs in `s`. */
  predicate MissesLegacyTokens(s: string) {
    IndexOf(s, "/Summary").None? && IndexOf(s, "/Link").None? && IndexOf(s, "/Hangout").None?
    && IndexOf(s, "/Location").None? && IndexOf(s, "/Start Time").None? && IndexOf(s, "/End Time").None?
  }

  /** None of the placeholders handled before `{start}` occurs in `s`. */
  predicate MissesEarlyTokens(s: string) {
    IndexOf(s, "{summary}").None? && IndexOf(s, "{link}").None? && IndexOf(s, "{hangout}").None?
    && IndexOf(s, "{confLink}").None? && IndexOf(s, "{location}").None? && FindTag(s, "attendees", 0).None?
  }

  /** None of the placeholders handled after `{start}` occurs in `s`. */
  predicate MissesLateTokens(s: string) {
    FindTag(s, "end", 0).None? && IndexOf(s, "{calendar}").None? && IndexOf(s, "{duration}").None?
    && IndexOf(s, "{custom}").None?
  }

  /** Text in which no pass recognises anything. */
  predicate Plain(s: string) {
    MissesLegacyTokens(s) && MissesEarlyTokens(s) && FindTag(s, "start", 0).None? && MissesLateTokens(s)
  }

  lemma LegacyPassesInert(s: string, e: Event, tf: TimeFormatter)
    requires MissesLegacyTokens(s)
    ensures ApplyAll(s, LegacyPasses(e, tf)) == s
  {
    assert forall p :: p in LegacyPasses(e, tf) ==> Inert(s, p);
    ApplyAllInert(s, LegacyPasses(e, tf));
  }

  lemma EarlyTagPassesInert(s: string, e: Event, includeLink: bool)
    requires MissesEarlyTokens(s)
    ensures forall p :: p in EarlyTagPasses(e, includeLink) ==> Inert(s, p)
  {
  }

  lemma LateTagPassesInert(s: string, e: Event, custom: Option<EventFormatter>, tf: TimeFormatter)
    requires MissesLateTokens(s)
    ensures forall p :: p in LateTagPasses(e, custom, tf) ==> Inert(s, p)
  {
  }

  /** A text in which nothing is recognised goes through each stage of passes unchanged. */
  lemma PlainInert(s: string, e: Event, includeLink: bool, custom: Option<EventFormatter>, tf: TimeFormatter)
    requires Plain(s)
    ensures ApplyAll(s, LegacyPasses(e, tf)) == s
    ensures ApplyAll(s, EarlyTagPasses(e, includeLink)) == s
    ensures ApplyAll(s, [StartPass(e, tf)] + LateTagPasses(e, custom, tf)) == s
  {
    LegacyPassesInert(s, e, tf);
    EarlyTagPassesInert(s, e, includeLink);
    ApplyAllInert(s, EarlyTagPasses(e, includeLink));
    LateTagPassesInert(s, e, custom, tf);
    ApplyAllInert(s, [StartPass(e, tf)] + LateTagPasses(e, custom, tf));
  }

  /** A text without a slash holds no deprecated token. */
  lemma NoSlashMissesLegacyTokens(s: string)
    requires '/' !in s
    ensures MissesLegacyTokens(s)
  {
    AbsentChar(s, "/Summary", '/');
    AbsentChar(s, "/Link", '/');
    AbsentChar(s, "/Hangout", '/');
    AbsentChar(s, "/Location", '/');
    AbsentChar(s, "/Start Time", '/');
    AbsentChar(s, "/End Time", '/');
  }

  /** A text without a brace-open holds no placeholder. */
  lemma NoBraceMissesPlaceholders(s: string)
    requires '{' !in s
    ensures MissesEarlyTokens(s) && FindTag(s, "start", 0).None? && MissesLateTokens(s)
  {
    AbsentChar(s, "{summary}", '{');
    AbsentChar(s, "{link}", '{');
    AbsentChar(s, "{hangout}", '{');
    AbsentChar(s, "{confLink}", '{');
    AbsentChar(s, "{location}", '{');
    AbsentChar(s, "{attendees", '{');
    NoOpenNoTag(s, "attendees", "{attendees");
    NoBraceMissesTimeTokens(s);
  }

  lemma NoBraceMissesTimeTokens(s: string)
    requires '{' !in s
    ensures FindTag(s, "start", 0).None? && MissesLateTokens(s)
  {
    AbsentChar(s, "{start", '{');
    NoOpenNoTag(s, "start", "{start");
    AbsentChar(s, "{end", '{');
    NoOpenNoTag(s, "end", "{end");
    AbsentChar(s, "{calendar}", '{');
    AbsentChar(s, "{duration}", '{');
    AbsentChar(s, "{custom}", '{');
  }

  /** A text with no slash and no brace-open is untouched by every pass. */
  lemma NoSlashNoBracePlain(s: string)
    requires '/' !in s && '{' !in s
    ensures Plain(s)
  {
    NoSlashMissesLegacyTokens(s);
    NoBraceMissesPlaceholders(s);
  }

  /**
    A text that opens with a brace-open, holds no other one, and whose next
    two characters rule out `{summary}`, `{link}`, `{hangout}`, `{confLink}`,
    `{location}` and `{attendees` (as `{start` and `{end` do), holds none of them.
  */
  lemma OtherTagMissesEarlyTokens(s: string)
    requires |s| >= 3 && s[0] == '{' && s[2] != 'u'
    requires s[1] != 'l' && s[1] != 'h' && s[1] != 'c' && s[1] != 'a'
    requires forall j :: 0 < j < |s| ==> s[j] != '{'
    ensures MissesEarlyTokens(s)
  {
    MismatchAfterOnlyLead(s, "{summary}", 2);
    MismatchAfterOnlyLead(s, "{link}", 1);
    MismatchAfterOnlyLead(s, "{hangout}", 1);
    OtherTagMissesPlaceTokens(s);
  }

  lemma OtherTagMissesPlaceTokens(s: string)
    requires |s| >= 2 && s[0] == '{' && s[1] != 'c' && s[1] != 'l' && s[1] != 'a'
    requires forall j :: 0 < j < |s| ==> s[j] != '{'
    ensures IndexOf(s, "{confLink}").None? && IndexOf(s, "{location}").None?
    ensures FindTag(s, "attendees", 0).None?
  {
    MismatchAfterOnlyLead(s, "{confLink}", 1);
    MismatchAfterOnlyLead(s, "{location}", 1);
    MismatchAfterOnlyLead(s, "{attendees", 1);
    NoOpenNoTag(s, "attendees", "{attendees");
  }

  /** A text in which nothing is recognised goes through all seventeen passes unchanged. */
  lemma PlainPassesInert(s: string, e: Event, includeLink: bool, custom: Option<EventFormatter>, tf: TimeFormatter)
    ensures Plain(s) ==> ApplyAll(s, Passes(e, includeLink, custom, tf)) == s
  {
    if Plain(s) {
      var legacy := LegacyPasses(e, tf);
      var early := EarlyTagPasses(e, includeLink);
      var rest := [StartPass(e, tf)] + LateTagPasses(e, custom, tf);
      PlainInert(s, e, includeLink, custom, tf);
      assert Passes(e, includeLink, custom, tf) == (legacy + early) + rest;
      ApplyAllAppend(s, legacy + early, rest);
      ApplyAllAppend(s, legacy, early);
    }
  }

  // ---- Properties of the formatter ----

  /**
    The passes taken in three stages: the deprecated ones, the early tag
    passes, then `{start}` with the late ones.
  */
  lemma FormatInStages(fmt: string, a: string, b: string, r: string,
                       e: Event, includeLink: bool, custom: Option<EventFormatter>, tf: TimeFormatter)
    requires fmt != ""
    requires ApplyAll(fmt, LegacyPasses(e, tf)) == a
    requires ApplyAll(a, EarlyTagPasses(e, includeLink)) == b
    requires ApplyAll(b, [StartPass(e, tf)] + LateTagPasses(e, custom, tf)) == r
    ensures FormatEvent(e, fmt, includeLink, custom, tf) == r
  {
    var legacy := LegacyPasses(e, tf);
    var early := EarlyTagPasses(e, includeLink);
    var rest := [StartPass(e, tf)] + LateTagPasses(e, custom, tf);
    assert Passes(e, includeLink, custom, tf) == (legacy + early) + rest;
    ApplyAllAppend(fmt, legacy + early, rest);
    ApplyAllAppend(fmt, legacy, early);
  }

  /** Without a link to the event, asking for the link changes nothing. */
  lemma NoLinkNoWrap(e: Event, fmt: string, custom: Option<EventFormatter>, tf: TimeFormatter)
    requires e.htmlLink == ""
    ensures FormatEvent(e, fmt, true, custom, tf) == FormatEvent(e, fmt, false, custom, tf)
  {
    assert LinkedSummary(e, true) == LinkedSummary(e, false);
  }

  /** `{name}` is a match with an empty argument. */
  lemma BareMatch(name: string)
    ensures MatchAt("{" + name + "}", name, 0) == Some(TagMatch(0, |name| + 2, ""))
  {
    var s := "{" + name + "}";
    assert s[..|name| + 1] == "{" + name;
    var j := |name| + 1;
    assert OccursAt(s, "{" + name, 0);
    assert s[j] == '}';
    assert CloseBrace(s, j) == Some(j);
    assert s[j..j] == "";
  }

  /** `{name:f}` is a match capturing `f`, when `f` holds no `}` and no line break. */
  lemma ArgumentMatch(name: string, f: string)
    requires forall k :: 0 <= k < |f| ==> f[k] != '}' && !IsLineTerminator(f[k])
    ensures MatchAt("{" + name + ":" + f + "}", name, 0) == Some(TagMatch(0, |name| + |f| + 3, f))
  {
    var s := "{" + name + ":" + f + "}";
    var c := |name| + 2;
    assert s[..|name| + 1] == "{" + name;
    forall k | c <= k < c + |f| ensures s[k] != '}' && !IsLineTerminator(s[k]) {
      assert s[k] == f[k - c];
    }
    CloseBraceFirst(s, c, c + |f|);
    assert s[c..c + |f|] == f;
  }

  /** A format argument with no brace, no line break and no deprecated token. */
  predicate PlainArgument(f: string) {
    MissesLegacyTokens(f) && forall k :: 0 <= k < |f| ==> f[k] != '{' && f[k] != '}' && !IsLineTerminator(f[k])
  }

  /**
    Every deprecated token starts with a slash and holds no `}`: put between a
    slash-free text and a `}`, a text gains none.
  */
  lemma EnclosedMissesLegacyTokens(a: string, f: string)
    requires '/' !in a && MissesLegacyTokens(f)
    ensures MissesLegacyTokens(a + f + "}")
  {
    EnclosedAbsent(a, f, '}', "/Summary");
    EnclosedAbsent(a, f, '}', "/Link");
    EnclosedAbsent(a, f, '}', "/Hangout");
    EnclosedAbsent(a, f, '}', "/Location");
    EnclosedAbsent(a, f, '}', "/Start Time");
    EnclosedAbsent(a, f, '}', "/End Time");
  }

  /** `{name}` and `{name:f}` hold no deprecated token and no brace-open past the first character. */
  lemma TagTemplateShape(name: string, f: string, s: string)
    requires '/' !in name && forall k :: 0 <= k < |name| ==> name[k] != '{'
    requires s == "{" + name + "}" || (PlainArgument(f) && s == "{" + name + ":" + f + "}")
    ensures MissesLegacyTokens(s) && forall j :: 0 < j < |s| ==> s[j] != '{'
  {
    forall j | 0 < j < |s| ensures s[j] != '{' {
      if j < 1 + |name| {
        assert s[j] == name[j - 1];
      } else if s != "{" + name + "}" && |name| + 2 <= j < |name| + 2 + |f| {
        assert s[j] == f[j - |name| - 2];
      }
    }
    if s == "{" + name + "}" {
      NoSlashMissesLegacyTokens(s);
    } else {
      var a := "{" + name + ":";
      assert s == a + f + "}";
      EnclosedMissesLegacyTokens(a, f);
    }
  }

  /** A template that is one whole match of a tag becomes the tag's rendering. */
  lemma WholeTagApplies(s: string, name: string, kind: TagKind, arg: string)
    requires MatchAt(s, name, 0) == Some(TagMatch(0, |s|, arg))
    ensures Apply(s, Tag(name, kind)) == Render(kind, arg)
  {
    assert FindTag(s, name, 0) == Some(TagMatch(0, |s|, arg));
    assert s[..0] == [] && s[|s|..] == [];
  }

  /**
    The deprecated and early passes find nothing in a template like `{start...}`
    or `{end...}`: one brace-open, in front, and no deprecated token.
  */
  lemma TagTemplateBeforeStart(s: string, e: Event, includeLink: bool, tf: TimeFormatter)
    requires |s| >= 3 && s[0] == '{' && s[2] != 'u'
    requires s[1] != 'l' && s[1] != 'h' && s[1] != 'c' && s[1] != 'a'
    requires MissesLegacyTokens(s) && forall j :: 0 < j < |s| ==> s[j] != '{'
    ensures ApplyAll(s, LegacyPasses(e, tf)) == s
    ensures ApplyAll(s, EarlyTagPasses(e, includeLink)) == s
  {
    LegacyPassesInert(s, e, tf);
    OtherTagMissesEarlyTokens(s);
    EarlyTagPassesInert(s, e, includeLink);
    ApplyAllInert(s, EarlyTagPasses(e, includeLink));
  }

  /**
    A template made of one `{start...}` match and nothing else renders as the
    start time in the captured format, then rescanned by the later passes.
  */
  lemma StartOnlyTemplate(s: string, arg: string, e: Event, includeLink: bool, custom: Option<EventFormatter>, tf: TimeFormatter)
    requires |s| >= 3 && s[0] == '{' && s[1] == 's' && s[2] == 't'
    requires MissesLegacyTokens(s) && forall j :: 0 < j < |s| ==> s[j] != '{'
    requires MatchAt(s, "start", 0) == Some(TagMatch(0, |s|, arg))
    ensures FormatEvent(e, s, includeLink, custom, tf) == ApplyAll(ResolveDate(e.start, arg, tf), LateTagPasses(e, custom, tf))
  {
    var late := LateTagPasses(e, custom, tf);
    var t := ResolveDate(e.start, arg, tf);
    TagTemplateBeforeStart(s, e, includeLink, tf);
    WholeTagApplies(s, "start", Time(e.start, tf), arg);
    assert ([StartPass(e, tf)] + late)[1..] == late;
    FormatInStages(s, s, s, ApplyAll(t, late), e, includeLink, custom, tf);
  }

  /** `{start}` renders the start time in the default format, rescanned by the later passes. */
  lemma StartBareTemplate(e: Event, includeLink: bool, custom: Option<EventFormatter>, tf: TimeFormatter)
    ensures FormatEvent(e, "{start}", includeLink, custom, tf)
         == ApplyAll(ResolveDate(e.start, "", tf), LateTagPasses(e, custom, tf))
  {
    BareMatch("start");
    TagTemplateShape("start", "", "{start}");
    StartOnlyTemplate("{start}", "", e, includeLink, custom, tf);
  }

  /** `{start:f}` renders the start time in format `f`, rescanned by the later passes. */
  lemma StartArgumentTemplate(f: string, e: Event, includeLink: bool, custom: Option<EventFormatter>, tf: TimeFormatter)
    requires PlainArgument(f)
    ensures FormatEvent(e, "{start:" + f + "}", includeLink, custom, tf)
         == ApplyAll(ResolveDate(e.start, f, tf), LateTagPasses(e, custom, tf))
  {
    var s := "{start:" + f + "}";
    assert s == "{" + "start" + ":" + f + "}";
    ArgumentMatch("start", f);
    TagTemplateShape("start", f, s);
    StartOnlyTemplate(s, f, e, includeLink, custom, tf);
  }

  /** `{start}` and `{start:hh:mm a}` render alike: an empty argument means the default format. */
  lemma StartDefaultFormat(e: Event, includeLink: bool, custom: Option<EventFormatter>, tf: TimeFormatter)
    ensures FormatEvent(e, "{start}", includeLink, custom, tf)
         == FormatEvent(e, "{start:" + DEFAULT_DATE_FORMAT + "}", includeLink, custom, tf)
  {
    DefaultFormatPlain();
    StartBareTemplate(e, includeLink, custom, tf);
    StartArgumentTemplate(DEFAULT_DATE_FORMAT, e, includeLink, custom, tf);
  }

  lemma DefaultFormatPlain()
    ensures PlainArgument(DEFAULT_DATE_FORMAT)
  {
    var f := DEFAULT_DATE_FORMAT;
    forall k | 0 <= k < |f|
      ensures f[k] != '/' && f[k] != '{' && f[k] != '}' && !IsLineTerminator(f[k])
    {
      assert f[k] == 'h' || f[k] == ':' || f[k] == 'm' || f[k] == ' ' || f[k] == 'a';
    }
    NoSlashMissesLegacyTokens(f);
  }

  /** An event without a start time renders `{start:f}` as `All Day`, for every plain format `f`. */
  lemma StartAllDay(e: Event, f: string, includeLink: bool, custom: Option<EventFormatter>, tf: TimeFormatter)
    requires e.start.None? && PlainArgument(f)
    ensures FormatEvent(e, "{start:" + f + "}", includeLink, custom, tf) == ALL_DAY
  {
    StartArgumentTemplate(f, e, includeLink, custom, tf);
    AllDayInert(e, includeLink, custom, tf);
  }

  /** `All Day` holds nothing a pass recognises. */
  lemma AllDayInert(e: Event, includeLink: bool, custom: Option<EventFormatter>, tf: TimeFormatter)
    ensures ApplyAll(ALL_DAY, LateTagPasses(e, custom, tf)) == ALL_DAY
    ensures ApplyAll(ALL_DAY, LateTagPasses(e, custom, tf)[1..]) == ALL_DAY
  {
    assert '/' !in ALL_DAY && '{' !in ALL_DAY;
    NoBraceMissesTimeTokens(ALL_DAY);
    LateTagPassesInert(ALL_DAY, e, custom, tf);
    ApplyAllInert(ALL_DAY, LateTagPasses(e, custom, tf));
    ApplyAllInert(ALL_DAY, LateTagPasses(e, custom, tf)[1..]);
  }

  /**
    A template made of one `{end...}` match and nothing else renders as the
    end time in the captured format, then rescanned by the passes after `{end}`.
  */
  lemma EndOnlyTemplate(s: string, arg: string, e: Event, includeLink: bool, custom: Option<EventFormatter>, tf: TimeFormatter)
    requires |s| >= 3 && s[0] == '{' && s[1] == 'e' && s[2] == 'n'
    requires MissesLegacyTokens(s) && forall j :: 0 < j < |s| ==> s[j] != '{'
    requires MatchAt(s, "end", 0) == Some(TagMatch(0, |s|, arg))
    ensures FormatEvent(e, s, includeLink, custom, tf) == ApplyAll(ResolveDate(e.end, arg, tf), LateTagPasses(e, custom, tf)[1..])
  {
    var t := ResolveDate(e.end, arg, tf);
    EndLikeBeforeEnd(s, e, includeLink, tf);
    WholeTagApplies(s, "end", Time(e.end, tf), arg);
    EndAfterInertStart(s, t, e, custom, tf);
    FormatInStages(s, s, s, ApplyAll(t, LateTagPasses(e, custom, tf)[1..]), e, includeLink, custom, tf);
  }

  /** When `{start}` leaves `s` alone, the late passes start with the `{end}` pass's result. */
  lemma EndAfterInertStart(s: string, t: string, e: Event, custom: Option<EventFormatter>, tf: TimeFormatter)
    requires Apply(s, StartPass(e, tf)) == s
    requires Apply(s, Tag("end", Time(e.end, tf))) == t
    ensures ApplyAll(s, [StartPass(e, tf)] + LateTagPasses(e, custom, tf)) == ApplyAll(t, LateTagPasses(e, custom, tf)[1..])
  {
    var late := LateTagPasses(e, custom, tf);
    assert ([StartPass(e, tf)] + late)[1..] == late;
    assert ApplyAll(s, [StartPass(e, tf)] + late) == ApplyAll(s, late);
  }

  /** The passes before `{end}` find nothing in a template that opens with `{en` and has no other brace-open. */
  lemma EndLikeBeforeEnd(s: string, e: Event, includeLink: bool, tf: TimeFormatter)
    requires |s| >= 3 && s[0] == '{' && s[1] == 'e' && s[2] == 'n'
    requires MissesLegacyTokens(s) && forall j :: 0 < j < |s| ==> s[j] != '{'
    ensures ApplyAll(s, LegacyPasses(e, tf)) == s
    ensures ApplyAll(s, EarlyTagPasses(e, includeLink)) == s
    ensures Apply(s, StartPass(e, tf)) == s
  {
    TagTemplateBeforeStart(s, e, includeLink, tf);
    EndLikeMissesStart(s, e, tf);
  }

  lemma EndLikeMissesStart(s: string, e: Event, tf: TimeFormatter)
    requires |s| >= 2 && s[0] == '{' && s[1] == 'e'
    requires forall j :: 0 < j < |s| ==> s[j] != '{'
    ensures Apply(s, StartPass(e, tf)) == s
  {
    MismatchAfterOnlyLead(s, "{start", 1);
    NoOpenNoTag(s, "start", "{start");
  }

  /** `{end}` renders the end time in the default format, rescanned by the later passes. */
  lemma EndBareTemplate(e: Event, includeLink: bool, custom: Option<EventFormatter>, tf: TimeFormatter)
    ensures FormatEvent(e, "{end}", includeLink, custom, tf)
         == ApplyAll(ResolveDate(e.end, "", tf), LateTagPasses(e, custom, tf)[1..])
  {
    BareMatch("end");
    TagTemplateShape("end", "", "{end}");
    EndOnlyTemplate("{end}", "", e, includeLink, custom, tf);
  }

  /** `{end:f}` renders the end time in format `f`, rescanned by the later passes. */
  lemma EndArgumentTemplate(f: string, e: Event, includeLink: bool, custom: Option<EventFormatter>, tf: TimeFormatter)
    requires PlainArgument(f)
    ensures FormatEvent(e, "{end:" + f + "}", includeLink, custom, tf)
         == ApplyAll(ResolveDate(e.end, f, tf), LateTagPasses(e, custom, tf)[1..])
  {
    var s := "{end:" + f + "}";
    assert s == "{" + "end" + ":" + f + "}";
    ArgumentMatch("end", f);
    TagTemplateShape("end", f, s);
    EndOnlyTemplate(s, f, e, includeLink, custom, tf);
  }

  /** `{end}` and `{end:hh:mm a}` render alike. */
  lemma EndDefaultFormat(e: Event, includeLink: bool, custom: Option<EventFormatter>, tf: TimeFormatter)
    ensures FormatEvent(e, "{end}", includeLink, custom, tf)
         == FormatEvent(e, "{end:" + DEFAULT_DATE_FORMAT + "}", includeLink, custom, tf)
  {
    DefaultFormatPlain();
    EndBareTemplate(e, includeLink, custom, tf);
    EndArgumentTemplate(DEFAULT_DATE_FORMAT, e, includeLink, custom, tf);
  }

  /** An event without an end time renders `{end:f}` as `All Day`, for every plain format `f`. */
  lemma EndAllDay(e: Event, f: string, includeLink: bool, custom: Option<EventFormatter>, tf: TimeFormatter)
    requires e.end.None? && PlainArgument(f)
    ensures FormatEvent(e, "{end:" + f + "}", includeLink, custom, tf) == ALL_DAY
  {
    EndArgumentTemplate(f, e, includeLink, custom, tf);
    AllDayInert(e, includeLink, custom, tf);
  }

  /** Without a custom formatter `{custom}` stays as it is; with one, it becomes the formatter's text. */
  lemma CustomPlaceholder(fmt: string, e: Event, includeLink: bool, custom: Option<EventFormatter>, tf: TimeFormatter)
    requires fmt == "{custom}"
    ensures custom.None? ==> FormatEvent(e, fmt, includeLink, custom, tf) == fmt
    ensures custom.Some? ==> FormatEvent(e, fmt, includeLink, custom, tf) == custom.value(e)
  {
    NoSlashMissesLegacyTokens(fmt);
    LegacyPassesInert(fmt, e, tf);
    CustomMissesEarlyTokens(fmt);
    EarlyTagPassesInert(fmt, e, includeLink);
    ApplyAllInert(fmt, EarlyTagPasses(e, includeLink));
    CustomRest(fmt, e, custom, tf);
    FormatInStages(fmt, fmt, fmt, CustomText(custom, e), e, includeLink, custom, tf);
  }

  /** In `{custom}`, only the last pass finds anything. */
  /**
    Without a custom formatter the last pass puts `{custom}` back in place of
    itself: any template renders as through every pass but that one.
  */
  lemma CustomAbsentKeepsPlaceholder(e: Event, fmt: string, includeLink: bool, tf: TimeFormatter)
    requires fmt != ""
    ensures FormatEvent(e, fmt, includeLink, None, tf)
         == ApplyAll(fmt, LegacyPasses(e, tf) + EarlyTagPasses(e, includeLink) + [StartPass(e, tf)] + LateTagPasses(e, None, tf)[..3])
  {
    var late := LateTagPasses(e, None, tf);
    var front := LegacyPasses(e, tf) + EarlyTagPasses(e, includeLink) + [StartPass(e, tf)] + late[..3];
    assert Passes(e, includeLink, None, tf) == front + [late[3]];
    ApplyAllAppend(fmt, front, [late[3]]);
    ReplaceFirstSelf(ApplyAll(fmt, front), "{custom}");
  }

  lemma CustomRest(s: string, e: Event, custom: Option<EventFormatter>, tf: TimeFormatter)
    requires s == "{custom}"
    ensures ApplyAll(s, [StartPass(e, tf)] + LateTagPasses(e, custom, tf)) == CustomText(custom, e)
  {
    var late := LateTagPasses(e, custom, tf);
    var front := [StartPass(e, tf)] + late[..3];
    CustomLateInert(s, e, custom, tf);
    ApplyAllInert(s, front);
    assert [StartPass(e, tf)] + late == front + [late[3]];
    ApplyAllAppend(s, front, [late[3]]);
    CustomLastPass(s, e, custom);
  }

  lemma CustomLastPass(s: string, e: Event, custom: Option<EventFormatter>)
    requires s == "{custom}"
    ensures ApplyAll(s, [Literal("{custom}", CustomText(custom, e))]) == CustomText(custom, e)
  {
    assert IndexOf(s, "{custom}") == Some(0);
  }

  lemma CustomMissesEarlyTokens(s: string)
    requires s == "{custom}"
    ensures MissesEarlyTokens(s)
  {
    MismatchAfterOnlyLead(s, "{summary}", 1);
    MismatchAfterOnlyLead(s, "{link}", 1);
    MismatchAfterOnlyLead(s, "{hangout}", 1);
    MismatchAfterOnlyLead(s, "{confLink}", 2);
    MismatchAfterOnlyLead(s, "{location}", 1);
    MismatchAfterOnlyLead(s, "{attendees", 1);
    NoOpenNoTag(s, "attendees", "{attendees");
  }

  lemma CustomLateInert(s: string, e: Event, custom: Option<EventFormatter>, tf: TimeFormatter)
    requires s == "{custom}"
    ensures forall p :: p in [StartPass(e, tf)] + LateTagPasses(e, custom, tf)[..3] ==> Inert(s, p)
  {
    CustomMissesLateTokens(s);
    assert [StartPass(e, tf)] + LateTagPasses(e, custom, tf)[..3]
      == [StartPass(e, tf), Tag("end", Time(e.end, tf)), Literal("{calendar}", e.calendar), Literal("{duration}", ResolveDuration(e))];
  }

  lemma CustomMissesLateTokens(s: string)
    requires s == "{custom}"
    ensures FindTag(s, "start", 0).None? && FindTag(s, "end", 0).None?
    ensures IndexOf(s, "{calendar}").None? && IndexOf(s, "{duration}").None?
  {
    MismatchAfterOnlyLead(s, "{start", 1);
    NoOpenNoTag(s, "start", "{start");
    MismatchAfterOnlyLead(s, "{end", 1);
    NoOpenNoTag(s, "end", "{end");
    MismatchAfterOnlyLead(s, "{calendar}", 2);
    MismatchAfterOnlyLead(s, "{duration}", 1);
  }

  /**
    The deprecated `/Summary` token takes the summary text without the link,
    whatever `includeLink` says (for a summary in which no pass recognises anything).
  */
  lemma LegacySummaryUnlinked(fmt: string, e: Event, includeLink: bool, custom: Option<EventFormatter>, tf: TimeFormatter)
    requires fmt == "/Summary" && Plain(SummaryText(e))
    ensures FormatEvent(e, fmt, includeLink, custom, tf) == SummaryText(e)
  {
    var t := SummaryText(e);
    LegacySummaryPass(fmt, e, tf);
    PlainInert(t, e, includeLink, custom, tf);
    FormatInStages(fmt, t, t, t, e, includeLink, custom, tf);
  }

  /** The deprecated passes turn `/Summary` into the summary text, when nothing in it is recognised. */
  lemma LegacySummaryPass(fmt: string, e: Event, tf: TimeFormatter)
    requires fmt == "/Summary" && MissesLegacyTokens(SummaryText(e))
    ensures ApplyAll(fmt, LegacyPasses(e, tf)) == SummaryText(e)
  {
    var t := SummaryText(e);
    var legacy := LegacyPasses(e, tf);
    assert IndexOf(fmt, "/Summary") == Some(0);
    assert Apply(fmt, legacy[0]) == t;
    assert forall p :: p in legacy[1..] ==> Inert(t, p);
    ApplyAllInert(t, legacy[1..]);
  }

  /**
    Later passes scan text that earlier passes inserted: a summary reading
    `{link}` is itself replaced by the event link.
  */
  lemma SummaryTextRescanned(fmt: string, e: Event, custom: Option<EventFormatter>, tf: TimeFormatter)
    requires fmt == "{summary}" && e.summary == "{link}" && e.visibility != "private"
    requires Plain(e.htmlLink)
    ensures FormatEvent(e, fmt, false, custom, tf) == e.htmlLink
  {
    var h := e.htmlLink;
    NoSlashMissesLegacyTokens(fmt);
    LegacyPassesInert(fmt, e, tf);
    SummaryThenLink(fmt, e, tf);
    PlainInert(h, e, false, custom, tf);
    EarlyTagPassesInert(h, e, false);
    ApplyAllInert(h, EarlyTagPasses(e, false)[2..]);
    FormatInStages(fmt, fmt, h, h, e, false, custom, tf);
  }

  /** `{summary}` becomes `{link}`, which the very next pass turns into the link. */
  lemma SummaryThenLink(s: string, e: Event, tf: TimeFormatter)
    requires s == "{summary}" && e.summary == "{link}" && e.visibility != "private"
    ensures ApplyAll(s, EarlyTagPasses(e, false)) == ApplyAll(e.htmlLink, EarlyTagPasses(e, false)[2..])
  {
    var early := EarlyTagPasses(e, false);
    OnlyTokenReplaced(s, "{link}");
    OnlyTokenReplaced("{link}", e.htmlLink);
    assert early[0] == Literal(s, "{link}");
    assert early[1] == Literal("{link}", e.htmlLink);
    assert ApplyAll(s, early) == ApplyAll("{link}", early[1..]);
    assert early[1..][1..] == early[2..];
  }

  /** A text that is exactly a literal token becomes that token's replacement. */
  lemma OnlyTokenReplaced(s: string, x: string)
    ensures Apply(s, Literal(s, x)) == x
  {
    IndexOfSpec(s, s);
    assert OccursAt(s, s, 0);
    assert s[..0] == [] && s[|s|..] == [];
  }

  /** An attendee renders as the format split at each `NAME` and rejoined with the attendee's name. */
  lemma RenderAttendeeSplitJoin(a: Attendee, fmt: string)
    ensures RenderAttendee(a, fmt) == Join(SplitOn(if fmt == "" then "NAME" else fmt, "NAME"), AttendeeName(a))
  {
    ReplaceAllIsSplitJoin(if fmt == "" then "NAME" else fmt, "NAME", AttendeeName(a));
  }

  /** With the default format an attendee shows as its name: the display name, else the e-mail address. */
  lemma DefaultAttendeeFormat(a: Attendee)
    ensures RenderAttendee(a, "") == AttendeeName(a)
    ensures a.displayName != "" ==> RenderAttendee(a, "") == a.displayName
    ensures a.displayName == "" ==> RenderAttendee(a, "") == a.email
  {
    IndexOfSpec("NAME", "NAME");
    assert IndexOf("NAME", "NAME") == Some(0);
    assert ReplaceAll("", "NAME", AttendeeName(a)) == "";
  }

  /** The rendered attendees appear in order, separated by `", "`. */
  lemma ResolveAttendeesCons(a: Attendee, rest: seq<Attendee>, fmt: string)
    ensures rest == [] ==> ResolveAttendees([a] + rest, fmt) == RenderAttendee(a, fmt)
    ensures rest != [] ==> ResolveAttendees([a] + rest, fmt) == RenderAttendee(a, fmt) + ", " + ResolveAttendees(rest, fmt)
  {
    var xs := [a] + rest;
    var pieces := seq(|xs|, k requires 0 <= k < |xs| => RenderAttendee(xs[k], fmt));
    assert pieces[1..] == seq(|rest|, k requires 0 <= k < |rest| => RenderAttendee(rest[k], fmt));
  }

  /** The empty template yields the summary, the start and end times, then the Meet and Zoom fragments. */
  lemma EmptyTemplateLayout(e: Event, includeLink: bool, custom: Option<EventFormatter>, tf: TimeFormatter)
    ensures FormatEvent(e, "", includeLink, custom, tf)
         == LinkedSummary(e, includeLink) + " (" + ResolveDate(e.start, "", tf) + " - " + ResolveDate(e.end, "", tf) + ")"
            + ConfLink(e)
  {
  }
}
