/** API-key configuration and authorisation, from src/middleware/auth.rs. A SHA-256 digest is
    a symbol that determines the text it was taken of. */
module Auth {
  import opened Prelude
  import opened Text

  const MAX_API_KEY_BYTES: nat := 1024

  datatype Scope = Chat | Operator

  datatype Digest = Sha256(text: string)

  datatype AuthConfig = AuthConfig(enabled: bool, apiKeys: seq<string>)

  datatype Grants = Grants(operator: bool)

  datatype AuthSnapshot = AuthSnapshot(enabled: bool, keys: map<Digest, Grants>)

  datatype KeyEntry = KeyEntry(raw: string, scope: Scope)

  /** `rsplit_once(':')`: the position of the last colon. */
  function LastColon(s: string): (at: Option<nat>)
    ensures at.Some? ==> at.value < |s|
  {
    if s == "" then None
    else if s[|s| - 1] == ':' then Some(|s| - 1)
    else LastColon(s[..|s| - 1])
  }

  function ParseKeyEntry(entry: string): Option<KeyEntry> {
    var trimmed := Trim(entry);
    if trimmed == "" then None
    else match LastColon(trimmed)
      case None => Some(KeyEntry(trimmed, Chat))
      case Some(at) =>
        var raw, scope := Trim(trimmed[..at]), trimmed[at + 1..];
        if scope == "operator" then Some(KeyEntry(raw, Operator))
        else if scope == "chat" then Some(KeyEntry(raw, Chat))
        else None
  }

  /** The entries that take effect: those that parse and are not oversized. */
  function Accepted(entry: string): Option<KeyEntry> {
    var parsed := ParseKeyEntry(entry);
    if parsed.Some? && ByteLen(parsed.value.raw) <= MAX_API_KEY_BYTES then parsed else None
  }

  function KeyMap(entries: seq<string>): map<Digest, Grants> {
    if entries == [] then map[] else
    var keys, last := KeyMap(entries[..|entries| - 1]), Accepted(entries[|entries| - 1]);
    if last.Some? then keys[Sha256(last.value.raw) := Grants(last.value.scope.Operator?)] else keys
  }

  function SnapshotOf(config: AuthConfig): AuthSnapshot {
    AuthSnapshot(config.enabled, KeyMap(config.apiKeys))
  }

  method FromConfig(config: AuthConfig) returns (snapshot: AuthSnapshot)
    ensures snapshot == SnapshotOf(config)
  {
    var keys: map<Digest, Grants> := map[];
    var entries := config.apiKeys;
    for i := 0 to |entries|
      invariant keys == KeyMap(entries[..i])
    {
      assert entries[..i + 1][..i] == entries[..i];
      var parsed := ParseKeyEntry(entries[i]);
      if parsed.Some? && ByteLen(parsed.value.raw) <= MAX_API_KEY_BYTES {
        keys := keys[Sha256(parsed.value.raw) := Grants(parsed.value.scope.Operator?)];
      }
    }
    assert entries[..|entries|] == entries;
    snapshot := AuthSnapshot(config.enabled, keys);
  }

  // ---- What the key map means ----

  /** The scope of the last entry that takes effect for `raw`. */
  function LastScope(entries: seq<string>, raw: string): Option<Scope> {
    if entries == [] then None else
    var last := Accepted(entries[|entries| - 1]);
    if last.Some? && last.value.raw == raw then Some(last.value.scope) else LastScope(entries[..|entries| - 1], raw)
  }

  /** A key is held exactly when some entry for it takes effect, and the last one decides
      what it grants. */
  lemma {:induction false} LastEntryDecides(entries: seq<string>, raw: string)
    ensures Sha256(raw) in KeyMap(entries) <==> LastScope(entries, raw).Some?
    ensures Sha256(raw) in KeyMap(entries) ==>
              KeyMap(entries)[Sha256(raw)] == Grants(LastScope(entries, raw).value.Operator?)
    decreases |entries|
  {
    if entries != [] {
      LastEntryDecides(entries[..|entries| - 1], raw);
    }
  }

  datatype Outcome = Pass | Unauthorized | Forbidden

  predicate RequiresOperator(path: string) {
    path == "/metrics" || "/v1/operations" <= path || "/v1/executions" <= path
  }

  predicate Open(path: string) {
    path == "/health" || path == "/ready"
  }

  function Authorize(snapshot: AuthSnapshot, path: string, key: Option<string>): Outcome {
    if !snapshot.enabled || Open(path) then Pass
    else if key.None? then Unauthorized
    else if key.value == "" || ByteLen(key.value) > MAX_API_KEY_BYTES then Unauthorized
    else if Sha256(key.value) !in snapshot.keys then Unauthorized
    else if RequiresOperator(path) && !snapshot.keys[Sha256(key.value)].operator then Forbidden
    else Pass
  }

  /** The metrics, and everything under operations and executions. */
  ghost predicate OperatorSurface(path: string) {
    || path == "/metrics"
    || (exists rest :: path == "/v1/operations" + rest)
    || (exists rest :: path == "/v1/executions" + rest)
  }

  lemma StartsWith(path: string, start: string)
    ensures start <= path <==> exists rest :: path == start + rest
  {
    if start <= path {
      assert path == start + path[|start|..];
    }
  }

  /** A key that some entry grants, of the scope its last entry gives. */
  ghost predicate Holder(config: AuthConfig, key: Option<string>, scope: Scope) {
    && key.Some? && 1 <= ByteLen(key.value) <= 1024
    && LastScope(config.apiKeys, key.value) == Some(scope)
  }

  /** Who gets through, in terms of the path and the configured entries alone: everybody when
      the check is off or only asks how the server is; otherwise the holder of a key, who
      needs the operator scope for the operator surface and is forbidden without it. */
  lemma AuthorizedIff(config: AuthConfig, path: string, key: Option<string>)
    ensures Authorize(SnapshotOf(config), path, key).Pass? <==>
            || !config.enabled || path == "/health" || path == "/ready"
            || Holder(config, key, Operator)
            || (Holder(config, key, Chat) && !OperatorSurface(path))
    ensures Authorize(SnapshotOf(config), path, key).Forbidden? <==>
            && config.enabled && path != "/health" && path != "/ready"
            && Holder(config, key, Chat) && OperatorSurface(path)
  {
    StartsWith(path, "/v1/operations");
    StartsWith(path, "/v1/executions");
    if key.Some? {
      LastEntryDecides(config.apiKeys, key.value);
    }
  }

  // ---- The entry syntax ----

  lemma {:induction false} NoColon(s: string)
    requires ':' !in s
    ensures LastColon(s) == None
    decreases |s|
  {
    if s != "" {
      NoColon(s[..|s| - 1]);
    }
  }

  /** A bare key may use the chat surface; `:chat` says so outright; `:operator` grants more;
      any other suffix voids the entry. A key may itself contain colons if a scope follows.
      Whitespace around the entry, and between key and colon, does not matter. */
  lemma KeySyntax(left: string, key: string, mid: string, suffix: string, right: string)
    requires Trimmed(key) && Trimmed(suffix) && ':' !in suffix
    requires AllWhitespace(left) && AllWhitespace(mid) && AllWhitespace(right)
    ensures ':' !in key ==> ParseKeyEntry(left + key + right) == Some(KeyEntry(key, Chat))
    ensures ParseKeyEntry(left + (key + mid + ":" + suffix) + right)
            == if suffix == "operator" then Some(KeyEntry(key, Operator))
               else if suffix == "chat" then Some(KeyEntry(key, Chat))
               else None
  {
    if ':' !in key {
      TrimPadded(left, key, right);
      NoColon(key);
    }
    var entry, at := key + mid + ":" + suffix, |key + mid|;
    assert entry[0] == key[0] && entry[|entry| - 1] == suffix[|suffix| - 1];
    TrimPadded(left, entry, right);
    assert forall i :: at < i < |entry| ==> entry[i] == suffix[i - at - 1];
    LastColonAt(entry, at);
    assert entry[..at] == key + mid && entry[at + 1..] == suffix;
    TrimPadded("", key, mid);
    assert "" + key + mid == key + mid;
  }

  /** An entry of nothing but whitespace is no entry. */
  lemma BlankEntry(entry: string)
    requires AllWhitespace(entry)
    ensures ParseKeyEntry(entry) == None
  {
    BlankIff(entry);
  }

  // ---- The reload subscriber ----

  predicate KeylessLock(snapshot: AuthSnapshot) {
    snapshot.enabled && snapshot.keys == map[]
  }

  datatype Reloader = Reloader(live: AuthSnapshot, staged: Option<AuthSnapshot>)

  function Prepared(r: Reloader, config: AuthConfig): Option<Reloader> {
    if KeylessLock(SnapshotOf(config)) then None else Some(r.(staged := Some(SnapshotOf(config))))
  }

  function Committed(r: Reloader): Reloader {
    if r.staged.Some? then Reloader(r.staged.value, None) else r
  }

  class AuthReloader {
    var live: AuthSnapshot
    var staged: Option<AuthSnapshot>

    ghost function View(): Reloader
      reads this
    {
      Reloader(live, staged)
    }

    constructor (live: AuthSnapshot)
      ensures View() == Reloader(live, None)
    {
      this.live, staged := live, None;
    }

    method Prepare(config: AuthConfig) returns (ok: bool)
      modifies this
      ensures ok <==> Prepared(old(View()), config).Some?
      ensures View() == if ok then Prepared(old(View()), config).value else old(View())
    {
      var snapshot := FromConfig(config);
      if snapshot.enabled && snapshot.keys == map[] {
        return false;
      }
      staged := Some(AuthSnapshot(snapshot.enabled, snapshot.keys));
      ok := true;
    }

    method Commit()
      modifies this
      ensures View() == Committed(old(View()))
    {
      if staged.Some? {
        live := staged.value;
        staged := None;
      }
    }
  }

  // ---- The header the key comes in ----

  newtype Byte = x: int | 0 <= x < 0x100

  /** What `HeaderValue::to_str` takes: visible ASCII, the space and the tab. */
  predicate Visible(code: int) {
    code == 9 || 0x20 <= code < 0x7F
  }

  /** `to_str().ok()`. */
  function HeaderText(value: seq<Byte>): Option<string> {
    if forall i :: 0 <= i < |value| ==> Visible(value[i] as int) then
      Some(seq(|value|, i requires 0 <= i < |value| => value[i] as char))
    else
      None
  }

  function PresentedKey(header: Option<seq<Byte>>): Option<string> {
    if header.None? then None else HeaderText(header.value)
  }

  /** The verdict on a request, from the raw `x-api-key` header. */
  function AuthorizeRequest(snapshot: AuthSnapshot, path: string, header: Option<seq<Byte>>): Outcome {
    Authorize(snapshot, path, PresentedKey(header))
  }

  predicate Presentable(key: string) {
    forall i :: 0 <= i < |key| ==> key[i] == '\t' || ' ' <= key[i] <= '~'
  }

  function AsHeader(key: string): seq<Byte>
    requires Presentable(key)
  {
    seq(|key|, i requires 0 <= i < |key| => key[i] as int as Byte)
  }

  /** A header can carry exactly the keys made of visible ASCII, spaces and tabs. */
  lemma HeaderCarries(key: string)
    ensures Presentable(key) <==> exists value :: HeaderText(value) == Some(key)
  {
    if Presentable(key) {
      var value := AsHeader(key);
      assert forall i :: 0 <= i < |key| ==> value[i] as int == key[i] as int;
      assert HeaderText(value).Some? && HeaderText(value).value == key;
    }
    if exists value :: HeaderText(value) == Some(key) {
      var value :| HeaderText(value) == Some(key);
      assert forall i :: 0 <= i < |key| ==> key[i] == value[i] as char;
    }
  }

  // ---- The check against locking everybody out ----

  const CHAT_PATH: string := "/v1/chat/completions"

  /** An entry that takes effect, with a key that a request can present. */
  predicate EntryUsable(entry: string) {
    Accepted(entry).Some? && Accepted(entry).value.raw != "" && Presentable(Accepted(entry).value.raw)
  }

  ghost predicate SomeoneGetsIn(config: AuthConfig) {
    exists header :: AuthorizeRequest(SnapshotOf(config), CHAT_PATH, header).Pass?
  }

  lemma {:induction false} LastScopeFrom(entries: seq<string>, i: nat)
    requires i < |entries| && Accepted(entries[i]).Some?
    ensures LastScope(entries, Accepted(entries[i]).value.raw).Some?
    decreases |entries|
  {
    if i < |entries| - 1 {
      LastScopeFrom(entries[..|entries| - 1], i);
    }
  }

  lemma {:induction false} LastScopeTo(entries: seq<string>, raw: string) returns (i: nat)
    requires LastScope(entries, raw).Some?
    ensures i < |entries| && Accepted(entries[i]).Some? && Accepted(entries[i]).value.raw == raw
    decreases |entries|
  {
    var last := Accepted(entries[|entries| - 1]);
    if last.Some? && last.value.raw == raw {
      i := |entries| - 1;
    } else {
      i := LastScopeTo(entries[..|entries| - 1], raw);
    }
  }

  ghost predicate SomeUsable(entries: seq<string>) {
    exists i :: 0 <= i < |entries| && EntryUsable(entries[i])
  }

  lemma ChatNeedsNoOperator()
    ensures !OperatorSurface(CHAT_PATH)
  {
    StartsWith(CHAT_PATH, "/v1/operations");
    StartsWith(CHAT_PATH, "/v1/executions");
    assert CHAT_PATH[4] == 'c' && "/v1/operations"[4] == 'o' && "/v1/executions"[4] == 'e';
    assert CHAT_PATH[1] == 'v' && "/metrics"[1] == 'm';
  }

  lemma UsableGetsIn(config: AuthConfig, i: nat)
    requires config.enabled && i < |config.apiKeys| && EntryUsable(config.apiKeys[i])
    ensures SomeoneGetsIn(config)
  {
    var key := Accepted(config.apiKeys[i]).value.raw;
    LastScopeFrom(config.apiKeys, i);
    AuthorizedIff(config, CHAT_PATH, Some(key));
    ChatNeedsNoOperator();
    assert ByteLen(key) >= 1;
    var scope := LastScope(config.apiKeys, key).value;
    assert Holder(config, Some(key), scope) && (scope == Chat || scope == Operator);
    assert Authorize(SnapshotOf(config), CHAT_PATH, Some(key)).Pass?;
    HeaderCarries(key);
    var value :| HeaderText(value) == Some(key);
    assert AuthorizeRequest(SnapshotOf(config), CHAT_PATH, Some(value)).Pass?;
  }

  /** An enabled configuration lets somebody in exactly when some entry carries a key that
      is not empty and that a header can carry. */
  lemma SomeoneGetsInIff(config: AuthConfig)
    requires config.enabled
    ensures SomeoneGetsIn(config) <==> SomeUsable(config.apiKeys)
  {
    var entries := config.apiKeys;
    if SomeoneGetsIn(config) {
      var header :| AuthorizeRequest(SnapshotOf(config), CHAT_PATH, header).Pass?;
      var key := PresentedKey(header);
      AuthorizedIff(config, CHAT_PATH, key);
      HeaderCarries(key.value);
      var i := LastScopeTo(entries, key.value);
      assert EntryUsable(entries[i]);
    }
    if SomeUsable(entries) {
      var i :| 0 <= i < |entries| && EntryUsable(entries[i]);
      UsableGetsIn(config, i);
    }
  }

  ghost predicate SomeAccepted(entries: seq<string>) {
    exists i :: 0 <= i < |entries| && Accepted(entries[i]).Some?
  }

  lemma {:induction false} KeysHeld(entries: seq<string>)
    ensures KeyMap(entries) != map[] <==> SomeAccepted(entries)
    decreases |entries|
  {
    if entries != [] {
      var front, last := entries[..|entries| - 1], entries[|entries| - 1];
      KeysHeld(front);
      if Accepted(last).Some? {
        assert Sha256(Accepted(last).value.raw) in KeyMap(entries);
        assert Accepted(entries[|entries| - 1]).Some?;
      }
    }
  }

  /** The guard in `prepare` counts keys, not usable ones. It lets a configuration pass that
      locks everybody out exactly when some entry takes effect and every one that does holds
      a key that no request can present. */
  lemma GuardMissesIff(r: Reloader, config: AuthConfig)
    requires config.enabled
    ensures Prepared(r, config).Some? && !SomeoneGetsIn(config) <==>
            SomeAccepted(config.apiKeys) && !SomeUsable(config.apiKeys)
  {
    KeysHeld(config.apiKeys);
    SomeoneGetsInIff(config);
  }

  /** An entry that is all scope holds the empty key, which no request may present. */
  lemma ScopeWithoutKeyLocksOut(r: Reloader)
    ensures var config := AuthConfig(true, [":operator"]);
            Prepared(r, config).Some? && !SomeoneGetsIn(config)
  {
    var config := AuthConfig(true, [":operator"]);
    ScopeOnly();
    assert Accepted(config.apiKeys[0]) == Some(KeyEntry("", Operator));
    GuardMissesIff(r, config);
  }

  /** A key with a character outside visible ASCII takes effect, and no header can carry it. */
  lemma UnprintableKeyLocksOut(r: Reloader, key: string)
    requires Trimmed(key) && ':' !in key && ByteLen(key) <= MAX_API_KEY_BYTES && !Presentable(key)
    ensures var config := AuthConfig(true, [key]);
            Prepared(r, config).Some? && !SomeoneGetsIn(config)
  {
    var config := AuthConfig(true, [key]);
    NoColon(key);
    assert Accepted(config.apiKeys[0]) == Some(KeyEntry(key, Chat));
    GuardMissesIff(r, config);
  }

  /** One such key, of four Cyrillic letters. */
  lemma CyrillicKeyLocksOut(r: Reloader)
    ensures var config := AuthConfig(true, ["\U{43A}\U{43B}\U{44E}\U{447}"]);
            Prepared(r, config).Some? && !SomeoneGetsIn(config)
  {
    var key := "\U{43A}\U{43B}\U{44E}\U{447}";
    assert key[0] as int == 0x43A;
    assert ByteLen(key) <= 16 by { assert key[1..][1..][1..][1..] == ""; }
    UnprintableKeyLocksOut(r, key);
  }

  lemma ScopeOnly()
    ensures Accepted(":operator") == Some(KeyEntry("", Operator))
  {
    var entry := ":operator";
    assert TrimStart(entry) == entry && TrimEnd(entry) == entry;
    LastColonAt(entry, 0);
    assert entry[..0] == "" && entry[1..] == "operator";
    assert TrimStart("") == "" && TrimEnd("") == "";
  }

  lemma {:induction false} LastColonAt(s: string, at: nat)
    requires at < |s| && s[at] == ':' && forall i :: at < i < |s| ==> s[i] != ':'
    ensures LastColon(s) == Some(at)
    decreases |s|
  {
    if at < |s| - 1 {
      LastColonAt(s[..|s| - 1], at);
    }
  }
}
