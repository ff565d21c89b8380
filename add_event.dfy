/**
  The "Add Google Calendar Event" command (src/index.ts): the properties the
  event dialog opens with. The focused block's text is the summary, and each
  child block `key:: value` sets the property named by its key, lowercased;
  `start` and `end` values go through a natural-language date parser. Later
  children overwrite earlier ones, and the children and the block's text
  overwrite the defaults.

  The clock and the date parser are parameters; times are in minutes.
*/
module AddEvent {
  import opened Wrappers
  import opened Strings
  import opened Blocks

  /** One property of the dialog's initial event: text, a parsed instant, or JavaScript's `undefined`. */
  datatype Field = Text(text: string) | Instant(when: Option<int>) | Undefined

  /** `chrono-node`'s `parseDate`, applied to a value or to `undefined`. */
  type DateParser = Option<string> -> Option<int>

  /** How long a new event lasts unless the block says otherwise, in minutes. */
  const DEFAULT_LENGTH: int := 30

  /** `text.split("::").map(s => s.trim())`, taken apart as `[key, value]`; the value is `undefined` without a separator. */
  function KeyValue(text: string): (r: (string, Option<string>))
    ensures r.1.None? <==> !Contains(text, "::")
    ensures Trimmed(r.0)
    ensures r.1.Some? ==> Trimmed(r.1.value)
  {
    IndexOfSpec(text, "::");
    var pieces := SplitOn(text, "::");
    (Trim(pieces[0]), if |pieces| > 1 then Some(Trim(pieces[1])) else None)
  }

  /** One child block as an entry: its lowercased key, and its value, parsed as a date for `start` and `end`. */
  function ParseChild(text: string, parse: DateParser): (r: (string, Field)) {
    var (key, value) := KeyValue(text);
    var attr := ToLower(key);
    (attr,
     if attr == "start" || attr == "end" then Instant(parse(value))
     else match value
       case Some(v) => Text(v)
       case None => Undefined)
  }

  /** `Object.fromEntries(entries)`: an entry overwrites the earlier ones with the same key. */
  function FromEntries(entries: seq<(string, Field)>): (r: map<string, Field>)
    ensures r.Keys == set i | 0 <= i < |entries| :: entries[i].0
  {
    if entries == [] then map[]
    else
      var front := entries[..|entries| - 1];
      assert forall i :: 0 <= i < |front| ==> front[i] == entries[i];
      FromEntries(front)[entries[|entries| - 1].0 := entries[|entries| - 1].1]
  }

  /** The dialog's defaults: no summary, empty description and location, from now for thirty minutes. */
  function Defaults(now: int): map<string, Field> {
    map["summary" := Text("No Summary"), "description" := Text(""), "location" := Text(""),
        "start" := Instant(Some(now)), "end" := Instant(Some(now + DEFAULT_LENGTH))]
  }

  /** The entries of a block's children, in order. */
  function ChildEntries(node: Node, parse: DateParser): (r: seq<(string, Field)>)
    ensures |r| == |node.children|
    ensures forall k :: 0 <= k < |r| ==> r[k] == ParseChild(node.children[k].text, parse)
  {
    seq(|node.children|, k requires 0 <= k < |node.children| => ParseChild(node.children[k].text, parse))
  }

  /** What the focused block sets: its text as summary, then its children's entries. */
  function Props(node: Node, parse: DateParser): (r: map<string, Field>)
    ensures forall key :: key in r <==>
              key == "summary" || exists k :: 0 <= k < |node.children| && ToLower(KeyValue(node.children[k].text).0) == key
  {
    var es := ChildEntries(node, parse);
    assert forall k :: 0 <= k < |es| ==> es[k].0 == ToLower(KeyValue(node.children[k].text).0);
    map["summary" := Text(node.text)] + FromEntries(es)
  }

  /** The properties the event dialog opens with. */
  function NewEventProps(focused: Option<Node>, now: int, parse: DateParser): (r: map<string, Field>)
    ensures focused.None? ==> r == Defaults(now)["blockUid" := Undefined]
  {
    var uid := if focused.Some? then Text(focused.value.uid) else Undefined;
    map["blockUid" := uid] + Defaults(now) + (if focused.Some? then Props(focused.value, parse) else map[])
  }

  // ---- Properties ----

  /**
    A child `key:: value` whose key holds no `::` and does not end in `:`
    (so that its first `::` is the separator) gives the trimmed key and the
    trimmed value.
  */
  lemma KeyValueSplit(key: string, value: string)
    requires !Contains(key + ":", "::") && !Contains(value, "::")
    ensures KeyValue(key + "::" + value) == (Trim(key), Some(Trim(value)))
  {
    SplitKeyValue(key, value);
  }

  lemma SplitKeyValue(key: string, value: string)
    requires !Contains(key + ":", "::") && !Contains(value, "::")
    ensures SplitOn(key + "::" + value, "::") == [key, value]
  {
    var s := key + "::" + value;
    IndexOfSpec(s, "::");
    assert OccursAt(s, "::", |key|) by { assert s[|key|..|key| + 2] == "::"; }
    forall j: nat | j < |key| ensures !OccursAt(s, "::", j) {
      assert s[j..j + 2] == (key + ":")[j..j + 2];
      assert !OccursAt(key + ":", "::", j);
    }
    var i := IndexOf(s, "::").value;
    assert i == |key|;
    assert s[..i] == key;
    assert s[i + 2..] == value;
    IndexOfSpec(value, "::");
    assert SplitOn(value, "::") == [value];
    assert SplitOn(s, "::") == [key] + [value];
  }

  /** A child without `::` gives its trimmed text as key and no value. */
  lemma KeyValueBare(text: string)
    requires !Contains(text, "::")
    ensures KeyValue(text) == (Trim(text), None)
  {
    IndexOfSpec(text, "::");
  }

  /** An entry no later entry shares a key with gives that key its value. */
  lemma {:induction false} FromEntriesAt(entries: seq<(string, Field)>, k: nat)
    requires k < |entries|
    requires forall i :: k < i < |entries| ==> entries[i].0 != entries[k].0
    ensures entries[k].0 in FromEntries(entries) && FromEntries(entries)[entries[k].0] == entries[k].1
  {
    var n := |entries| - 1;
    if k < n {
      var front := entries[..n];
      assert front[k] == entries[k];
      FromEntriesAt(front, k);
    }
  }

  /** A lowercased key is never `blockUid`. */
  lemma LowerIsNotBlockUid(key: string)
    ensures ToLower(key) != "blockUid"
  {
    if |key| == 8 {
      assert ToLower(key)[5] == LowerChar(key[5]);
    }
  }

  /** A focused block's uid goes to the dialog; no child can overwrite it, keys being lowercased. */
  lemma BlockUidKept(node: Node, now: int, parse: DateParser)
    ensures NewEventProps(Some(node), now, parse)["blockUid"] == Text(node.uid)
  {
    NoChildSetsBlockUid(node, parse);
    NotADefault(now);
    var base := map["blockUid" := Text(node.uid)] + Defaults(now);
    assert base["blockUid"] == Text(node.uid);
    assert "blockUid" !in Props(node, parse);
  }

  lemma NotADefault(now: int)
    ensures "blockUid" !in Defaults(now)
  {
    assert "blockUid"[0] != "location"[0];
  }

  lemma NoChildSetsBlockUid(node: Node, parse: DateParser)
    ensures "blockUid" !in FromEntries(ChildEntries(node, parse))
  {
    var entries := ChildEntries(node, parse);
    forall i | 0 <= i < |entries| ensures entries[i].0 != "blockUid" {
      LowerIsNotBlockUid(KeyValue(node.children[i].text).0);
    }
  }

  /**
    With a focused block, the summary is the block's text, even an empty one,
    unless a `summary::` child overrides it: the `No Summary` default is then
    never used.
  */
  lemma FocusedSummary(node: Node, now: int, parse: DateParser)
    requires forall k :: 0 <= k < |node.children| ==> ParseChild(node.children[k].text, parse).0 != "summary"
    ensures NewEventProps(Some(node), now, parse)["summary"] == Text(node.text)
  {
    var entries := ChildEntries(node, parse);
    assert forall i :: 0 <= i < |entries| ==> entries[i].0 != "summary";
    assert "summary" !in FromEntries(entries);
    assert Props(node, parse)["summary"] == Text(node.text);
  }

  /** A property set by a child takes the value of the last child that sets it. */
  lemma ChildSets(node: Node, now: int, parse: DateParser, k: nat)
    requires k < |node.children|
    requires forall i :: k < i < |node.children| ==>
      ParseChild(node.children[i].text, parse).0 != ParseChild(node.children[k].text, parse).0
    ensures var entry := ParseChild(node.children[k].text, parse);
      entry.0 in NewEventProps(Some(node), now, parse) && NewEventProps(Some(node), now, parse)[entry.0] == entry.1
  {
    var entries := ChildEntries(node, parse);
    FromEntriesAt(entries, k);
    ChildrenWin(node, now, parse, entries[k].0);
  }

  /** What the children set wins over the defaults and the block's text. */
  lemma ChildrenWin(node: Node, now: int, parse: DateParser, key: string)
    requires key in FromEntries(ChildEntries(node, parse))
    ensures key in NewEventProps(Some(node), now, parse)
    ensures NewEventProps(Some(node), now, parse)[key] == FromEntries(ChildEntries(node, parse))[key]
  {
  }

  /** A default no child overrides stays: the event runs from now for thirty minutes unless the block says otherwise. */
  lemma DefaultStays(node: Node, now: int, parse: DateParser, key: string)
    requires key in Defaults(now) && key != "summary"
    requires forall k :: 0 <= k < |node.children| ==> ParseChild(node.children[k].text, parse).0 != key
    ensures NewEventProps(Some(node), now, parse)[key] == Defaults(now)[key]
  {
    var entries := ChildEntries(node, parse);
    assert forall i :: 0 <= i < |entries| ==> entries[i].0 != key;
    assert key !in FromEntries(entries);
    assert key !in Props(node, parse);
    NotADefault(now);
  }
}
