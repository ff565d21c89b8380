/**
  The create/update event dialog (src/CreateEventDialog.tsx) without its
  user interface: which calendars it offers and which one it starts on,
  which credential it asks for, the request it sends, and what it writes
  into the graph once the calendar service answers. After an update, the
  old summary, description and location are rewritten to the new ones in
  the blocks around the edited one, each changed block being written once
  per visit.

  The credential, the calendar service's answer, the graph's blocks and
  `encodeURIComponent` are parameters; the writes are returned as a list.
*/
module EventDialog {
  import opened Wrappers
  import opened Strings
  import opened Blocks

  const DEFAULT_CALENDAR: string := "primary"
  const NOT_LOGGED_IN: string := "Not logged in with Google"
  const CALENDARS_API: string := "https://www.googleapis.com/calendar/v3/calendars/"

  /** A configured calendar: its id, and the account whose credential reaches it (`None` when it names none). */
  datatype CalendarRef = CalendarRef(calendar: string, account: Option<string>)

  /** What `getSubTree` returns when no node has the key. */
  const EMPTY_NODE: Node := Node("", "", [])

  /**
    `getSubTree({tree, key})`: the first node whose text, lowercased and
    trimmed, is the key lowercased; an empty node when there is none.
  */
  function GetSubTree(tree: seq<Node>, key: string): (r: Node)
    ensures r == EMPTY_NODE || (r in tree && ToLower(Trim(r.text)) == ToLower(key))
    ensures (forall n :: n in tree ==> ToLower(Trim(n.text)) != ToLower(key)) ==> r == EMPTY_NODE
  {
    if tree == [] then EMPTY_NODE
    else if ToLower(Trim(tree[0].text)) == ToLower(key) then tree[0]
    else GetSubTree(tree[1..], key)
  }

  /** One calendar per node: the node's text, and its first child's text as the account. */
  function CalendarRefs(nodes: seq<Node>): (r: seq<CalendarRef>)
    ensures |r| == |nodes|
    ensures forall k :: 0 <= k < |nodes| ==> r[k].calendar == nodes[k].text
    ensures forall k :: 0 <= k < |nodes| ==> (r[k].account.Some? <==> nodes[k].children != [])
    ensures forall k :: 0 <= k < |nodes| && nodes[k].children != [] ==> r[k].account.value == nodes[k].children[0].text
  {
    seq(|nodes|, k requires 0 <= k < |nodes| =>
      CalendarRef(nodes[k].text, if nodes[k].children != [] then Some(nodes[k].children[0].text) else None))
  }

  /** `getCalendarIds`: the calendars listed under `import` / `calendars` on the configuration page. */
  function GetCalendarIds(configTree: seq<Node>): (r: seq<CalendarRef>)
    ensures (forall n :: n in configTree ==> ToLower(Trim(n.text)) != "import") ==> r == []
  {
    var importNode := GetSubTree(configTree, "import");
    LowerImport();
    assert importNode.children == [] ==> GetSubTree(importNode.children, "calendars") == EMPTY_NODE;
    CalendarRefs(GetSubTree(importNode.children, "calendars").children)
  }

  lemma LowerImport()
    ensures ToLower("import") == "import"
  {
  }

  /** The calendars the dialog offers: the one it was opened for, or the configured ones. */
  function Offered(given: Option<CalendarRef>, configTree: seq<Node>): (r: seq<CalendarRef>)
    ensures given.Some? ==> r == [given.value]
    ensures given.None? && (forall n :: n in configTree ==> ToLower(Trim(n.text)) != "import") ==> r == []
  {
    if given.Some? then [given.value] else GetCalendarIds(configTree)
  }

  /**
    The calendar the dialog starts on, as written: `calendarIds[0].calendar ||
    "primary"`. Reading the first element of an empty list throws; `None`
    stands for that.
  */
  function InitialCalendarAsWritten(offered: seq<CalendarRef>): (r: Option<string>)
    ensures r.None? <==> offered == []
    ensures r.Some? ==> r.value != ""
  {
    if offered == [] then None
    else Some(if offered[0].calendar != "" then offered[0].calendar else DEFAULT_CALENDAR)
  }

  /** A page without configured calendars makes the dialog throw before it opens. */
  lemma InitialCalendarAsWrittenThrows()
    ensures InitialCalendarAsWritten(Offered(None, [])) == None
  {
  }

  /** The calendar the dialog starts on: the first offered one, or `primary` when there is none or its id is empty. */
  function InitialCalendar(offered: seq<CalendarRef>): (r: string)
    ensures r != ""
    ensures offered != [] && offered[0].calendar != "" ==> r == offered[0].calendar
    ensures offered == [] || offered[0].calendar == "" ==> r == DEFAULT_CALENDAR
  {
    if offered != [] && offered[0].calendar != "" then offered[0].calendar else DEFAULT_CALENDAR
  }

  /** Wherever the code as written does not throw, the corrected choice agrees with it. */
  lemma InitialCalendarAgrees(offered: seq<CalendarRef>)
    ensures InitialCalendarAsWritten(offered).Some? ==> InitialCalendarAsWritten(offered).value == InitialCalendar(offered)
    ensures InitialCalendarAsWritten(offered).None? <==> offered == []
  {
  }

  /** `calendarIds.find(c => c.calendar === calendarId)?.account`: the label of the credential to use. */
  function AccountFor(offered: seq<CalendarRef>, calendarId: string): (r: Option<string>)
    ensures (forall k :: 0 <= k < |offered| ==> offered[k].calendar != calendarId) ==> r.None?
  {
    if offered == [] then None
    else if offered[0].calendar == calendarId then offered[0].account
    else AccountFor(offered[1..], calendarId)
  }

  /** The account is the one of the first offered entry for the calendar. */
  lemma {:induction false} AccountForFirst(offered: seq<CalendarRef>, calendarId: string, k: nat)
    requires k < |offered| && offered[k].calendar == calendarId
    requires forall j :: 0 <= j < k ==> offered[j].calendar != calendarId
    ensures AccountFor(offered, calendarId) == offered[k].account
  {
    if k > 0 {
      AccountForFirst(offered[1..], calendarId, k - 1);
    }
  }

  // ---- The request ----

  datatype Method = Post | Put

  /** The event sent: the dialog's fields, times in minutes. */
  datatype EventBody = EventBody(summary: string, description: string, location: string, start: int, end: int)

  datatype Request = Request(verb: Method, url: string, body: EventBody, token: string)

  /** What pressing the button does: a request, or an error shown without sending anything. */
  datatype Submission = Send(request: Request) | Refuse(error: string)

  /** The events collection of a calendar, or one event of it when editing (`edit` is the event id, `""` when creating). */
  function EventsUrl(calendarId: string, edit: string, encode: string -> string): string {
    CALENDARS_API + encode(calendarId) + "/events" + (if edit != "" then "/" + edit else "")
  }

  /** The button: without a token an error and no request; else a PUT to the event when editing, a POST to the calendar's events when creating. */
  function Submit(token: string, edit: string, calendarId: string, body: EventBody, encode: string -> string): (r: Submission)
    ensures token == "" ==> r == Refuse(NOT_LOGGED_IN)
    ensures token != "" ==> r.Send? && r.request.body == body && r.request.token == token
    ensures token != "" && edit != "" ==> r.request.verb == Put && r.request.url == EventsUrl(calendarId, "", encode) + "/" + edit
    ensures token != "" && edit == "" ==> r.request.verb == Post && r.request.url == CALENDARS_API + encode(calendarId) + "/events"
  {
    if token == "" then Refuse(NOT_LOGGED_IN)
    else Send(Request(if edit != "" then Put else Post, EventsUrl(calendarId, edit, encode), body, token))
  }

  // ---- After the answer ----

  /** A write into the graph. */
  datatype Write = CreateChild(parentUid: string, text: string) | UpdateBlock(uid: string, text: string)

  /** The event as the calendar service saved it. */
  datatype Saved = Saved(summary: string, description: string, location: string, htmlLink: string)

  /** The calendar service's answer: the saved event, or the message of its error (`""` when there is none). */
  datatype Reply = Succeeded(saved: Saved) | Rejected(message: string)

  /**
    The summary, description and location the dialog was opened with, `None`
    where the edited event had no such field: what an update looks for.
  */
  datatype Original = Original(summary: Option<string>, description: Option<string>, location: Option<string>)

  /** The text `includes` and `replace` look for: the field, or `undefined`, the text JavaScript makes of an absent one. */
  function Searched(field: Option<string>): string {
    field.GetOr("undefined")
  }

  /** The saved fields are the ones the update looks for: an update that changes nothing. */
  predicate SameFields(prior: Original, saved: Saved) {
    Searched(prior.summary) == saved.summary && Searched(prior.description) == saved.description
    && Searched(prior.location) == saved.location
  }

  /** The dialog after the answer: its writes, the error it shows (`""` for none), and whether it closed. */
  datatype Outcome = Outcome(writes: seq<Write>, error: string, closed: bool)

  /** One block's text after an update: the first occurrence of each old field replaced by the new one, in order. */
  function NewText(text: string, prior: Original, saved: Saved): (r: string)
    ensures SameFields(prior, saved) ==> r == text
  {
    ReplaceFirstSelf(text, Searched(prior.summary));
    ReplaceFirstSelf(text, Searched(prior.description));
    ReplaceFirstSelf(text, Searched(prior.location));
    ReplaceFirst(ReplaceFirst(ReplaceFirst(text, Searched(prior.summary), saved.summary),
                              Searched(prior.description), saved.description),
                 Searched(prior.location), saved.location)
  }

  /** `updateNode`: rewrite this block when its text changes, then every child, depth first. */
  function UpdateNode(n: Node, prior: Original, saved: Saved): (r: seq<Write>)
    ensures forall k :: 0 <= k < |r| ==> r[k].UpdateBlock?
    ensures SameFields(prior, saved) ==> r == []
    decreases n
  {
    var t := NewText(n.text, prior, saved);
    (if t != n.text then [UpdateBlock(n.uid, t)] else []) + UpdateChildren(n.children, prior, saved)
  }

  function UpdateChildren(ns: seq<Node>, prior: Original, saved: Saved): (r: seq<Write>)
    ensures forall k :: 0 <= k < |r| ==> r[k].UpdateBlock?
    ensures SameFields(prior, saved) ==> r == []
    decreases ns
  {
    if ns == [] then [] else UpdateNode(ns[0], prior, saved) + UpdateChildren(ns[1..], prior, saved)
  }

  /**
    The tree the update walks: the edited block itself, with its own children
    when its text contains the old summary, and otherwise with its parent's
    children (among which the block appears again).
  */
  function EditRoot(blockUid: string, blockText: string, ownChildren: seq<Node>, parentChildren: seq<Node>, prior: Original): (r: Node)
    ensures r.uid == blockUid && r.text == blockText
    ensures Contains(blockText, Searched(prior.summary)) ==> r.children == ownChildren
    ensures !Contains(blockText, Searched(prior.summary)) ==> r.children == parentChildren
  {
    IndexOfSpec(blockText, Searched(prior.summary));
    Node(blockUid, blockText, if IndexOf(blockText, Searched(prior.summary)).Some? then ownChildren else parentChildren)
  }

  /**
    The answer handled: an error leaves the dialog open with the message and
    writes nothing; a created event gets one `Link::` child under the block;
    an updated one has its old text rewritten around the block.
  */
  function Complete(edit: string, blockUid: string, prior: Original, reply: Reply,
                    blockText: string, ownChildren: seq<Node>, parentChildren: seq<Node>): (r: Outcome)
    ensures reply.Rejected? ==> r == Outcome([], reply.message, false)
    ensures reply.Succeeded? && edit == "" ==> r == Outcome([CreateChild(blockUid, "Link:: " + reply.saved.htmlLink)], "", true)
  {
    match reply
    case Rejected(message) => Outcome([], message, false)
    case Succeeded(saved) =>
      if edit == "" then Outcome([CreateChild(blockUid, "Link:: " + saved.htmlLink)], "", true)
      else Outcome(UpdateNode(EditRoot(blockUid, blockText, ownChildren, parentChildren, prior), prior, saved), "", true)
  }

  // ---- What an update writes ----

  /** The blocks of a tree, parents before children. */
  function Preorder(n: Node): seq<Node>
    decreases n
  {
    [n] + PreorderAll(n.children)
  }

  function PreorderAll(ns: seq<Node>): seq<Node>
    decreases ns
  {
    if ns == [] then [] else Preorder(ns[0]) + PreorderAll(ns[1..])
  }

  /** A reference definition: one write for each listed block whose text the update changes, in order. */
  function Changed(ns: seq<Node>, prior: Original, saved: Saved): (r: seq<Write>)
    ensures |r| <= |ns|
  {
    if ns == [] then []
    else
      var t := NewText(ns[0].text, prior, saved);
      (if t != ns[0].text then [UpdateBlock(ns[0].uid, t)] else []) + Changed(ns[1..], prior, saved)
  }

  lemma {:induction false} ChangedAppend(a: seq<Node>, b: seq<Node>, prior: Original, saved: Saved)
    ensures Changed(a + b, prior, saved) == Changed(a, prior, saved) + Changed(b, prior, saved)
  {
    if a == [] {
      assert a + b == b;
    } else {
      assert (a + b)[0] == a[0];
      assert (a + b)[1..] == a[1..] + b;
      ChangedAppend(a[1..], b, prior, saved);
    }
  }

  /** The walk writes, in depth-first order, exactly the blocks whose text it changes, each with its new text. */
  lemma {:induction false} UpdateNodeIsChanged(n: Node, prior: Original, saved: Saved)
    ensures UpdateNode(n, prior, saved) == Changed(Preorder(n), prior, saved)
    decreases n
  {
    UpdateChildrenIsChanged(n.children, prior, saved);
    ChangedAppend([n], PreorderAll(n.children), prior, saved);
  }

  lemma {:induction false} UpdateChildrenIsChanged(ns: seq<Node>, prior: Original, saved: Saved)
    ensures UpdateChildren(ns, prior, saved) == Changed(PreorderAll(ns), prior, saved)
    decreases ns
  {
    if ns != [] {
      UpdateNodeIsChanged(ns[0], prior, saved);
      UpdateChildrenIsChanged(ns[1..], prior, saved);
      ChangedAppend(Preorder(ns[0]), PreorderAll(ns[1..]), prior, saved);
    }
  }

  /**
    A saved update closes the dialog and writes, parents before children,
    exactly the blocks around the edited one whose text the update changes.
  */
  lemma CompleteUpdate(edit: string, blockUid: string, prior: Original, saved: Saved,
                       blockText: string, ownChildren: seq<Node>, parentChildren: seq<Node>)
    requires edit != ""
    ensures var r := Complete(edit, blockUid, prior, Succeeded(saved), blockText, ownChildren, parentChildren);
      r.closed && r.error == "" &&
      r.writes == Changed(Preorder(EditRoot(blockUid, blockText, ownChildren, parentChildren, prior)), prior, saved)
  {
    UpdateNodeIsChanged(EditRoot(blockUid, blockText, ownChildren, parentChildren, prior), prior, saved);
  }

  /**
    When the edited block's text lacks the old summary, the walk goes through
    the parent's children, which list the edited block again: a change to it
    is written once as the root and once as the parent's child.
  */
  lemma EditedBlockWrittenTwice(edit: string, blockUid: string, prior: Original, saved: Saved, blockText: string)
    requires edit != ""
    requires !Contains(blockText, Searched(prior.summary)) && NewText(blockText, prior, saved) != blockText
    ensures var t := NewText(blockText, prior, saved);
      Complete(edit, blockUid, prior, Succeeded(saved), blockText, [], [Node(blockUid, blockText, [])]).writes
        == [UpdateBlock(blockUid, t), UpdateBlock(blockUid, t)]
  {
    var leaf := Node(blockUid, blockText, []);
    CompleteUpdate(edit, blockUid, prior, saved, blockText, [], [leaf]);
    var root := EditRoot(blockUid, blockText, [], [leaf], prior);
    assert PreorderAll([leaf]) == [leaf];
    assert Preorder(root) == [root, leaf];
  }

  /** Every write names a listed block and gives it a text different from the one it had. */
  lemma {:induction false} ChangedWrites(ns: seq<Node>, prior: Original, saved: Saved)
    ensures forall w :: w in Changed(ns, prior, saved) ==>
      w.UpdateBlock? && exists n :: n in ns && n.uid == w.uid && w.text == NewText(n.text, prior, saved) != n.text
  {
    if ns != [] {
      ChangedWrites(ns[1..], prior, saved);
      forall w | w in Changed(ns[1..], prior, saved)
        ensures exists n :: n in ns && n.uid == w.uid && w.text == NewText(n.text, prior, saved) != n.text
      {
        var n :| n in ns[1..] && n.uid == w.uid && w.text == NewText(n.text, prior, saved) != n.text;
        assert n in ns;
      }
    }
  }

  /** Saving the fields the update looks for writes nothing. */
  lemma {:induction false} UnchangedWritesNothing(ns: seq<Node>, prior: Original, saved: Saved)
    requires SameFields(prior, saved)
    ensures Changed(ns, prior, saved) == []
  {
    if ns != [] {
      UnchangedWritesNothing(ns[1..], prior, saved);
    }
  }

  /** The link of the saved event plays no part in an update. */
  lemma {:induction false} SavedLinkIrrelevant(ns: seq<Node>, prior: Original, a: Saved, b: Saved)
    requires a.summary == b.summary && a.description == b.description && a.location == b.location
    ensures Changed(ns, prior, a) == Changed(ns, prior, b)
  {
    if ns != [] {
      SavedLinkIrrelevant(ns[1..], prior, a, b);
    }
  }

  /**
    An empty old field matches at the very start of every text, as an empty
    pattern does in `String.prototype.replace`: with all three old fields
    empty, every block visited gets the new location, description and summary
    put in front of its text.
  */
  lemma EmptyFieldsPrepend(text: string, saved: Saved)
    ensures NewText(text, Original(Some(""), Some(""), Some("")), saved) == saved.location + saved.description + saved.summary + text
  {
    ReplaceFirstAtStart(text, saved.summary);
    ReplaceFirstAtStart(saved.summary + text, saved.description);
    ReplaceFirstAtStart(saved.description + (saved.summary + text), saved.location);
    assert saved.location + (saved.description + (saved.summary + text))
      == saved.location + saved.description + saved.summary + text;
  }

  /**
    An event without summary, description or location makes the update look
    for the text `undefined` three times: a block text without it is left as
    it is.
  */
  lemma AbsentFieldsKeepText(text: string, saved: Saved)
    requires !Contains(text, "undefined")
    ensures NewText(text, Original(None, None, None), saved) == text
  {
    ReplaceFirstSpec(text, "undefined", saved.summary);
    ReplaceFirstSpec(text, "undefined", saved.description);
    ReplaceFirstSpec(text, "undefined", saved.location);
  }

  lemma ReplaceFirstAtStart(s: string, x: string)
    ensures ReplaceFirst(s, "", x) == x + s
  {
    IndexOfSpec(s, "");
    assert OccursAt(s, "", 0);
  }
}
