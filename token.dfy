/**
  The Google access token (`getAccessToken`, src/util.ts): which stored
  credential is used, whether it must be refreshed, and what a refresh
  writes back. The stored credentials, the clock, the refresh service and
  the host's storage are parameters; the writes are returned as a list and
  given a meaning by `ApplyWrites`.

  Times are milliseconds since the epoch, as JavaScript dates count them.
*/
module Token {
  import opened Wrappers

  /** The storage key of the credential list written by the current login. */
  const STORAGE_KEY: string := "oauth-google"
  /** The storage key the extension's first login used. */
  const LEGACY_STORAGE_KEY: string := "oauth-google-calendar"
  /** What the host returns when no credential is stored. */
  const NO_OAUTH: string := "{}"

  /** A JSON object with text values: stored credential data, or the refresh service's answer. */
  type Json = map<string, string>

  /**
    A stored credential, as `JSON.parse` reads it: the token, its lifetime in
    seconds (absent: `None`), the refresh token, and the block that holds it
    with the time it was written (absent: `None`).
  */
  datatype Credential = Credential(
    accessToken: string,
    expiresIn: Option<int>,
    refreshToken: string,
    time: Option<int>,
    uid: string)

  /** One entry of a stored credential list. */
  datatype Entry = Entry(uid: string, text: string, data: Json, time: Option<int>)

  /** What to do with the credentials found. */
  datatype Decision =
    | NotLoggedIn
    | UseStored(token: string)
    | Refresh(refreshToken: string, uid: string, isLegacy: bool)

  /**
    The credential in use: the legacy one when it is set and not `{}`,
    otherwise the one stored under the current label; and whether it is the
    legacy one.
  */
  function SelectOauth(legacy: string, labelled: string): (r: (string, bool))
    ensures r.1 <==> legacy != "" && legacy != NO_OAUTH
    ensures r.1 ==> r.0 == legacy
    ensures !r.1 ==> r.0 == labelled
  {
    var isLegacy := legacy != "" && legacy != NO_OAUTH;
    (if isLegacy then legacy else labelled, isLegacy)
  }

  /** Milliseconds to whole seconds, truncated toward zero as `differenceInSeconds` does. */
  function WholeSeconds(ms: int): (r: int)
    ensures ms >= 0 ==> 0 <= r && r * 1000 <= ms < r * 1000 + 1000
    ensures ms < 0 ==> r <= 0 && r * 1000 - 1000 < ms <= r * 1000
  {
    if ms >= 0 then ms / 1000 else -((-ms) / 1000)
  }

  /** When the token was issued: its time, or the epoch when the time is absent or zero. */
  function Issued(time: Option<int>): int {
    if time.Some? && time.value != 0 then time.value else 0
  }

  /** `differenceInSeconds(now, issued)`: the token's age in whole seconds. */
  function TokenAge(now: int, time: Option<int>): (r: int)
    ensures now >= Issued(time) ==> 0 <= r && r * 1000 <= now - Issued(time) < r * 1000 + 1000
    ensures now < Issued(time) ==> r <= 0
  {
    WholeSeconds(now - Issued(time))
  }

  /**
    `tokenAge > expires_in`; a comparison with an absent lifetime is false.
    Once issued, a token expires as soon as a whole second past its lifetime
    has gone by.
  */
  function Expired(now: int, c: Credential): (r: bool)
    ensures now >= Issued(c.time) ==>
      (r <==> c.expiresIn.Some? && now - Issued(c.time) >= 1000 * (c.expiresIn.value + 1))
  {
    c.expiresIn.Some? && TokenAge(now, c.time) > c.expiresIn.value
  }

  /** The decision `getAccessToken` takes; `parse` is `JSON.parse` on a stored credential. */
  function Decide(legacy: string, labelled: string, parse: string -> Credential, now: int): (r: Decision)
    ensures r.NotLoggedIn? <==> SelectOauth(legacy, labelled).0 == NO_OAUTH
    ensures r.Refresh? ==> (r.isLegacy <==> legacy != "" && legacy != NO_OAUTH)
  {
    var (oauth, isLegacy) := SelectOauth(legacy, labelled);
    if oauth == NO_OAUTH then NotLoggedIn
    else
      var c := parse(oauth);
      if Expired(now, c) then Refresh(c.refreshToken, c.uid, isLegacy)
      else UseStored(c.accessToken)
  }

  /** `{refresh_token, ...response}`: the old refresh token under the refresh service's answer. */
  function RefreshedData(refreshToken: string, response: Json): (r: Json)
    ensures r.Keys == response.Keys + {"refresh_token"}
    ensures forall k :: k in response ==> r[k] == response[k]
    ensures "refresh_token" !in response ==> r["refresh_token"] == refreshToken
  {
    map["refresh_token" := refreshToken] + response
  }

  /** The credential list with the entry of block `uid` given new data and the time `now`; its uid and text stay. */
  function UpdateEntries(entries: seq<Entry>, uid: string, data: Json, now: int): (r: seq<Entry>)
    ensures |r| == |entries|
  {
    seq(|entries|, k requires 0 <= k < |entries| =>
      if entries[k].uid == uid then Entry(entries[k].uid, entries[k].text, data, Some(now)) else entries[k])
  }

  // ---- Writes ----

  /** A write to the host: local storage, or the block that holds a credential. */
  datatype Write =
    | StorageRemove(key: string)
    | StorageSet(key: string, entries: seq<Entry>)
    | UpdateBlock(uid: string, data: Json)
    /** A new `oauth` block on the `roam/js/google` page, with the credential block moved under it. */
    | MoveUnderNewOauthBlock(uid: string)

  /**
    What a refresh writes: when a credential list is stored (under the legacy
    key for a legacy credential), the list with the entry updated goes to the
    current key, the legacy key being removed first; otherwise the
    credential's block gets the new data, and a legacy block is moved under a
    new `oauth` block.
  */
  function RefreshWrites(isLegacy: bool, stored: Option<seq<Entry>>, uid: string, data: Json, now: int): seq<Write> {
    match stored
    case Some(entries) =>
      (if isLegacy then [StorageRemove(LEGACY_STORAGE_KEY)] else [])
      + [StorageSet(STORAGE_KEY, UpdateEntries(entries, uid, data, now))]
    case None =>
      [UpdateBlock(uid, data)] + (if isLegacy then [MoveUnderNewOauthBlock(uid)] else [])
  }

  /** The host state the writes touch: local storage, the credential blocks' data, and the blocks moved under a new `oauth` block. */
  datatype Host = Host(storage: map<string, seq<Entry>>, blocks: map<string, Json>, moved: seq<string>)

  function ApplyWrite(h: Host, w: Write): Host {
    match w
    case StorageRemove(key) => h.(storage := h.storage - {key})
    case StorageSet(key, entries) => h.(storage := h.storage[key := entries])
    case UpdateBlock(uid, data) => h.(blocks := h.blocks[uid := data])
    case MoveUnderNewOauthBlock(uid) => h.(moved := h.moved + [uid])
  }

  function ApplyWrites(h: Host, ws: seq<Write>): Host
    decreases |ws|
  {
    if ws == [] then h else ApplyWrites(ApplyWrite(h, ws[0]), ws[1..])
  }

  /** The list a refresh reads: `localStorageGet` under the key of the credential's kind. */
  function StoredList(h: Host, isLegacy: bool): Option<seq<Entry>> {
    var key := if isLegacy then LEGACY_STORAGE_KEY else STORAGE_KEY;
    if key in h.storage then Some(h.storage[key]) else None
  }

  /**
    `getAccessToken`: the token it resolves to and the host after its writes.
    `now` is the clock when the token's age is taken, `later` the clock when
    the refresh service's answer, `post(refreshToken)`, has come back.
  */
  function GetAccessToken(legacy: string, labelled: string, parse: string -> Credential, now: int, later: int,
                          post: string -> Json, h: Host): (r: (string, Host))
    ensures Decide(legacy, labelled, parse, now).NotLoggedIn? ==> r == ("", h)
    ensures !Decide(legacy, labelled, parse, now).Refresh? ==> r.1 == h
    ensures forall k :: k in h.storage && k != STORAGE_KEY && k != LEGACY_STORAGE_KEY ==>
      k in r.1.storage && r.1.storage[k] == h.storage[k]
  {
    match Decide(legacy, labelled, parse, now)
    case NotLoggedIn => ("", h)
    case UseStored(token) => (token, h)
    case Refresh(refreshToken, uid, isLegacy) =>
      var response := post(refreshToken);
      var data := RefreshedData(refreshToken, response);
      var writes := RefreshWrites(isLegacy, StoredList(h, isLegacy), uid, data, later);
      RefreshKeepsOtherKeys(h, isLegacy, StoredList(h, isLegacy), uid, data, later);
      (if "access_token" in response then response["access_token"] else "", ApplyWrites(h, writes))
  }

  /** A refresh writes under the two credential keys only. */
  lemma RefreshKeepsOtherKeys(h: Host, isLegacy: bool, stored: Option<seq<Entry>>, uid: string, data: Json, now: int)
    ensures var h' := ApplyWrites(h, RefreshWrites(isLegacy, stored, uid, data, now));
      forall k :: k in h.storage && k != STORAGE_KEY && k != LEGACY_STORAGE_KEY ==>
        k in h'.storage && h'.storage[k] == h.storage[k]
  {
    match stored
    case Some(entries) => StoredListWrites(h, isLegacy, entries, uid, data, now);
    case None => BlockWrites(h, isLegacy, uid, data, now);
  }

  // ---- Properties ----

  /** A stored `{}` means not logged in: the token is empty, nothing is refreshed and nothing written. */
  lemma NoOauthNoRefresh(legacy: string, labelled: string, parse: string -> Credential, now: int, later: int, post: string -> Json, h: Host)
    requires SelectOauth(legacy, labelled).0 == NO_OAUTH
    ensures Decide(legacy, labelled, parse, now) == NotLoggedIn
    ensures GetAccessToken(legacy, labelled, parse, now, later, post, h) == ("", h)
  {
  }

  /**
    The refresh decision: a refresh exactly when the token's age in whole
    seconds exceeds its lifetime, and otherwise the stored token unchanged,
    with nothing written.
  */
  lemma RefreshIffExpired(legacy: string, labelled: string, parse: string -> Credential, now: int, later: int, post: string -> Json, h: Host)
    requires SelectOauth(legacy, labelled).0 != NO_OAUTH
    ensures var c := parse(SelectOauth(legacy, labelled).0);
      && (Decide(legacy, labelled, parse, now).Refresh? <==> Expired(now, c))
      && (!Expired(now, c) ==> GetAccessToken(legacy, labelled, parse, now, later, post, h) == (c.accessToken, h))
      && (Expired(now, c) ==> Decide(legacy, labelled, parse, now) == Refresh(c.refreshToken, c.uid, SelectOauth(legacy, labelled).1))
  {
  }

  /** A credential without an issue time counts from the epoch: once a lifetime's worth of seconds has passed since 1970, it is refreshed. */
  lemma NoTimeCountsFromEpoch(now: nat, c: Credential)
    requires c.time.None? && c.expiresIn.Some? && c.expiresIn.value >= 0
    ensures Expired(now, c) <==> now >= 1000 * (c.expiresIn.value + 1)
  {
  }

  /** Ages are truncated: a token is still fresh until a whole second past its lifetime. */
  lemma AgeTruncates(issued: int, lifetime: nat)
    requires issued != 0
    ensures TokenAge(issued + 1000 * lifetime + 999, Some(issued)) == lifetime
    ensures TokenAge(issued + 1000 * (lifetime + 1), Some(issued)) == lifetime + 1
  {
  }

  /**
    The list update touches exactly the entries of the refreshed block: those
    keep their uid and text and get the new data and time; every other entry,
    and the order, stay as they were.
  */
  lemma UpdateEntriesSpec(entries: seq<Entry>, uid: string, data: Json, now: int, k: nat)
    requires k < |entries|
    ensures entries[k].uid == uid ==>
      UpdateEntries(entries, uid, data, now)[k] == entries[k].(data := data, time := Some(now))
    ensures entries[k].uid != uid ==> UpdateEntries(entries, uid, data, now)[k] == entries[k]
  {
  }

  /** Updating twice with the same data and time is updating once. */
  lemma UpdateEntriesIdempotent(entries: seq<Entry>, uid: string, data: Json, now: int)
    ensures UpdateEntries(UpdateEntries(entries, uid, data, now), uid, data, now) == UpdateEntries(entries, uid, data, now)
  {
  }

  /** A list without the refreshed block's entry is stored back unchanged. */
  lemma UpdateEntriesAbsent(entries: seq<Entry>, uid: string, data: Json, now: int)
    requires forall k :: 0 <= k < |entries| ==> entries[k].uid != uid
    ensures UpdateEntries(entries, uid, data, now) == entries
  {
  }

  /** The writes of a refresh with a stored list, carried out. */
  lemma StoredListWrites(h: Host, isLegacy: bool, entries: seq<Entry>, uid: string, data: Json, now: int)
    ensures ApplyWrites(h, RefreshWrites(isLegacy, Some(entries), uid, data, now))
      == h.(storage := (if isLegacy then h.storage - {LEGACY_STORAGE_KEY} else h.storage)[STORAGE_KEY := UpdateEntries(entries, uid, data, now)])
  {
    var set_ := StorageSet(STORAGE_KEY, UpdateEntries(entries, uid, data, now));
    if isLegacy {
      var remove := StorageRemove(LEGACY_STORAGE_KEY);
      assert [remove, set_][1..] == [set_];
      assert ApplyWrites(h, [remove, set_]) == ApplyWrites(ApplyWrite(h, remove), [set_]);
      assert [set_][1..] == [];
      assert ApplyWrites(ApplyWrite(h, remove), [set_]) == ApplyWrite(ApplyWrite(h, remove), set_);
    } else {
      assert [set_][1..] == [];
      assert ApplyWrites(h, [set_]) == ApplyWrite(h, set_);
    }
  }

  /** The writes of a refresh without a stored list, carried out. */
  lemma BlockWrites(h: Host, isLegacy: bool, uid: string, data: Json, now: int)
    ensures ApplyWrites(h, RefreshWrites(isLegacy, None, uid, data, now))
      == h.(blocks := h.blocks[uid := data], moved := h.moved + (if isLegacy then [uid] else []))
  {
    var update := UpdateBlock(uid, data);
    if isLegacy {
      var move := MoveUnderNewOauthBlock(uid);
      assert [update, move][1..] == [move];
      assert ApplyWrites(h, [update, move]) == ApplyWrites(ApplyWrite(h, update), [move]);
      assert [move][1..] == [];
      assert ApplyWrites(ApplyWrite(h, update), [move]) == ApplyWrite(ApplyWrite(h, update), move);
    } else {
      assert [update][1..] == [];
      assert ApplyWrites(h, [update]) == ApplyWrite(h, update);
    }
  }

  /**
    After a refresh with a stored list, the current key holds the updated list,
    stamped with the time the answer came back, and the legacy key is gone when the credential was the legacy one; the
    blocks are untouched, and the new access token is returned.
  */
  lemma RefreshStoresList(legacy: string, labelled: string, parse: string -> Credential, now: int, later: int, post: string -> Json, h: Host)
    requires Decide(legacy, labelled, parse, now).Refresh?
    requires StoredList(h, Decide(legacy, labelled, parse, now).isLegacy).Some?
    ensures var d := Decide(legacy, labelled, parse, now);
      var response := post(d.refreshToken);
      var r := GetAccessToken(legacy, labelled, parse, now, later, post, h);
      && r.0 == (if "access_token" in response then response["access_token"] else "")
      && STORAGE_KEY in r.1.storage
      && r.1.storage[STORAGE_KEY]
         == UpdateEntries(StoredList(h, d.isLegacy).value, d.uid, RefreshedData(d.refreshToken, response), later)
      && (d.isLegacy ==> LEGACY_STORAGE_KEY !in r.1.storage)
      && r.1.blocks == h.blocks && r.1.moved == h.moved
  {
    var d := Decide(legacy, labelled, parse, now);
    StoredListWrites(h, d.isLegacy, StoredList(h, d.isLegacy).value, d.uid, RefreshedData(d.refreshToken, post(d.refreshToken)), later);
  }

  /**
    After a refresh without a stored list, the credential's block holds the
    new data, and a legacy credential's block is moved under a new `oauth`
    block; storage is untouched.
  */
  lemma RefreshUpdatesBlock(legacy: string, labelled: string, parse: string -> Credential, now: int, later: int, post: string -> Json, h: Host)
    requires Decide(legacy, labelled, parse, now).Refresh?
    requires StoredList(h, Decide(legacy, labelled, parse, now).isLegacy).None?
    ensures var d := Decide(legacy, labelled, parse, now);
      var r := GetAccessToken(legacy, labelled, parse, now, later, post, h);
      && r.1.storage == h.storage
      && r.1.blocks == h.blocks[d.uid := RefreshedData(d.refreshToken, post(d.refreshToken))]
      && r.1.moved == h.moved + (if d.isLegacy then [d.uid] else [])
  {
    var d := Decide(legacy, labelled, parse, now);
    BlockWrites(h, d.isLegacy, d.uid, RefreshedData(d.refreshToken, post(d.refreshToken)), later);
  }
}
