/**
  The in-memory user-info cache against the users table. Every request that
  touches either side is one step (authentication and handler together), and the
  lemmas show which steps keep each cached entry equal to its row, over whole
  runs, and exactly when the remaining ones do.
 */
module UserCache {
  import opened Common
  import opened Decimal
  import Events
  import SqlPatch
  import Text

  /** The columns of a users row that are cached; three of them may be NULL. */
  datatype Row = Row(
    token: string, webhook: string, events: string, proxy: string,
    history: Option<int>, s3Enabled: Option<bool>, mediaDelivery: Option<string>)

  /** The fields of a cached Values map that mirror columns. */
  datatype Info = Info(
    id: string, token: string, webhook: string, events: string, proxy: string,
    history: string, s3Enabled: string, mediaDelivery: string)

  /** `used` are all ids ever generated. */
  datatype State = State(rows: map<string, Row>, cache: map<string, Info>, used: set<string>)

  // ---------------------------------------------------------------------
  // Filling the cache
  // ---------------------------------------------------------------------

  function Itoa(n: int): string {
    if n < 0 then "-" + Numeral(-n) else Numeral(n)
  }

  /** A printed history limit reads back. */
  lemma ItoaReadsBack(n: int)
    ensures n >= 0 ==> Canonical(Itoa(n)) && ValueOf(Itoa(n)) == n
    ensures n < 0 ==> Itoa(n)[0] == '-' && Canonical(Itoa(n)[1..]) && ValueOf(Itoa(n)[1..]) == -n
  {
    NumeralIsCanonical(if n < 0 then -n else n);
    assert n < 0 ==> Itoa(n)[1..] == Numeral(-n);
  }

  function FormatBool(b: bool): string {
    if b then "true" else "false"
  }

  /** The entry authalice builds from a row: NULL history is "0", NULL s3_enabled false, NULL media_delivery base64. */
  function Fill(id: string, row: Row): Info {
    Info(id, row.token, row.webhook, row.events, row.proxy,
         match row.history case None => "0" case Some(n) => Itoa(n),
         match row.s3Enabled case None => "false" case Some(b) => FormatBool(b),
         match row.mediaDelivery case None => "base64" case Some(m) => m)
  }

  /** The entry is that user's, and each of its fields is the column of the row, with the defaults for NULL. */
  predicate Mirrors(i: Info, id: string, token: string, row: Row) {
    && i.id == id && i.token == token && i.webhook == row.webhook && i.events == row.events && i.proxy == row.proxy
    && i.history == (if row.history.Some? then Itoa(row.history.value) else "0")
    && i.s3Enabled == (if row.s3Enabled == Some(true) then "true" else "false")
    && i.mediaDelivery == (if row.mediaDelivery.Some? then row.mediaDelivery.value else "base64")
  }

  lemma FillMirrors(id: string, row: Row)
    ensures Mirrors(Fill(id, row), id, row.token, row)
  {
  }

  /** Authentication: a cache hit, or the row SELECT ... LIMIT 1 picked among those with this token. */
  function Authenticated(s: State, token: string, pick: string): State {
    if token in s.cache || pick !in s.rows || s.rows[pick].token != token then s
    else s.(cache := s.cache[token := Fill(pick, s.rows[pick])])
  }

  // ---------------------------------------------------------------------
  // What the handlers do
  // ---------------------------------------------------------------------

  /** What a user's request asks for, after its payload has been decoded and validated. */
  datatype Action =
    | Read
    | Connect(subscribe: seq<string>)
    | Disconnect
    | DeleteWebhook
    | SetWebhook(url: string, events: seq<string>)
    | UpdateWebhook(url: string, events: seq<string>, active: bool)
    | SetHistory(limit: nat)
    | SetProxy(url: string, enable: bool)
    | ConfigureS3(enabled: bool, media: string)
    | DeleteS3Config
    | RefreshHistory

  /** SetWebhook and UpdateWebhook keep the supported events, repetitions included. */
  function JoinSupported(events: seq<string>): string {
    Text.Join(Events.Filter(events, Events.Supported))
  }

  function DeliveryOr(media: string): string {
    if media == "" then "base64" else media
  }

  predicate ValidDelivery(media: string) {
    media == "" || media == "base64" || media == "s3" || media == "both"
  }

  /** The UPDATE statement of the action. */
  function RowAfter(row: Row, a: Action): Row {
    match a
    case Connect(subscribe) => row.(events := Events.Stored(subscribe, Events.Supported))
    case Disconnect => row.(events := "")
    case DeleteWebhook => row.(webhook := "", events := "")
    case SetWebhook(url, events) =>
      if events == [] then row.(webhook := url) else row.(webhook := url, events := JoinSupported(events))
    case UpdateWebhook(url, events, active) =>
      var url' := if active then url else "";
      if events == [] then row.(webhook := url')
      else row.(webhook := url', events := if active then JoinSupported(events) else "")
    case SetHistory(n) => row.(history := Some(n))
    case SetProxy(url, enable) => row.(proxy := if enable then url else "")
    case ConfigureS3(enabled, media) =>
      if ValidDelivery(media) then row.(s3Enabled := Some(enabled), mediaDelivery := Some(DeliveryOr(media))) else row
    case DeleteS3Config => row.(s3Enabled := Some(false), mediaDelivery := Some("base64"))
    case _ => row
  }

  /** The updateUserInfo calls of the action. */
  function InfoAfter(i: Info, a: Action): Info {
    match a
    case Connect(subscribe) => i.(events := Events.Stored(subscribe, Events.Supported))
    case Disconnect => i.(events := "")
    case DeleteWebhook => i.(webhook := "", events := "")
    case SetWebhook(url, events) =>
      i.(webhook := url, events := if events == [] then "" else JoinSupported(events))
    case UpdateWebhook(url, events, active) =>
      i.(webhook := if active then url else "", events := if active then JoinSupported(events) else "")
    case SetHistory(n) => i.(history := Itoa(n))
    case SetProxy(url, enable) => i.(proxy := if enable then url else "")
    case ConfigureS3(enabled, media) =>
      if ValidDelivery(media) then i.(s3Enabled := FormatBool(enabled), mediaDelivery := DeliveryOr(media)) else i
    case _ => i
  }

  /** Connect and Disconnect only log a failed UPDATE and still write the cache; the others stop. */
  predicate IgnoresSqlError(a: Action) {
    a.Connect? || a.Disconnect?
  }

  /** The handler, running for the user cached under token. */
  function Handled(s: State, token: string, a: Action, sqlOk: bool): State
    requires token in s.cache
  {
    var i := s.cache[token];
    if a.RefreshHistory? then s.(cache := s.cache - {token})
    else if !sqlOk && !IgnoresSqlError(a) then s
    else
      s.(rows := if sqlOk && i.id in s.rows then s.rows[i.id := RowAfter(s.rows[i.id], a)] else s.rows,
         cache := s.cache[token := InfoAfter(i, a)])
  }

  function Requested(s: State, token: string, pick: string, a: Action, sqlOk: bool): State {
    var t := Authenticated(s, token, pick);
    if token in t.cache then Handled(t, token, a, sqlOk) else t
  }

  /** A request is served exactly when its token is cached or some row has it, and then its handler runs. */
  lemma RequestIsServed(s: State, token: string, pick: string, a: Action, sqlOk: bool)
    ensures token in s.cache ==> Requested(s, token, pick, a, sqlOk) == Handled(s, token, a, sqlOk)
    ensures token !in s.cache && pick in s.rows && s.rows[pick].token == token ==>
              var filled := s.(cache := s.cache[token := Fill(pick, s.rows[pick])]);
              Requested(s, token, pick, a, sqlOk) == Handled(filled, token, a, sqlOk)
    ensures token !in s.cache && !(pick in s.rows && s.rows[pick].token == token) ==>
              Requested(s, token, pick, a, sqlOk) == s
  {
  }

  // ---------------------------------------------------------------------
  // The admin side
  // ---------------------------------------------------------------------

  /** Service.Create: refused when any row already has the token. */
  function Created(s: State, id: string, row: Row): State {
    if id in s.used || exists k <- s.rows :: s.rows[k].token == row.token then s
    else s.(rows := s.rows[id := row], used := s.used + {id})
  }

  /** A patch applied to the cached columns. */
  function PatchedRow(row: Row, u: SqlPatch.UpdateInput): Row {
    Row(if u.token != "" then u.token else row.token,
        if u.webhook != "" then u.webhook else row.webhook,
        if u.events != "" then u.events else row.events,
        match u.proxyConfig case None => row.proxy case Some(p) => if p.enabled then p.proxyURL else "",
        if u.history != 0 then Some(u.history) else row.history,
        match u.s3Config case None => row.s3Enabled case Some(c) => Some(c.enabled),
        match u.s3Config case None => row.mediaDelivery case Some(c) => Some(c.mediaDelivery))
  }

  /** Each field after the patch is the patch's when it has one, and as it was when not. */
  predicate FollowsPatch(was: Row, now: Row, u: SqlPatch.UpdateInput) {
    && now.token == (if u.token == "" then was.token else u.token)
    && now.webhook == (if u.webhook == "" then was.webhook else u.webhook)
    && now.events == (if u.events == "" then was.events else u.events)
    && now.history == (if u.history == 0 then was.history else Some(u.history))
    && (u.proxyConfig.None? ==> now.proxy == was.proxy)
    && (u.proxyConfig.Some? && u.proxyConfig.value.enabled ==> now.proxy == u.proxyConfig.value.proxyURL)
    && (u.proxyConfig.Some? && !u.proxyConfig.value.enabled ==> now.proxy == "")
    && (u.s3Config.None? ==> now.s3Enabled == was.s3Enabled && now.mediaDelivery == was.mediaDelivery)
    && (u.s3Config.Some? ==>
          now.s3Enabled == Some(u.s3Config.value.enabled) && now.mediaDelivery == Some(u.s3Config.value.mediaDelivery))
  }

  lemma PatchedRowFollows(row: Row, u: SqlPatch.UpdateInput)
    ensures FollowsPatch(row, PatchedRow(row, u), u)
  {
  }

  /** Service.Update followed by the hook, which drops the cache entries of the old and the new token. */
  function Updated(s: State, id: string, u: SqlPatch.UpdateInput, accepted: bool): State {
    if id !in s.rows || !accepted then s
    else
      var row := PatchedRow(s.rows[id], u);
      s.(rows := s.rows[id := row], cache := s.cache - {s.rows[id].token, row.token})
  }

  datatype Op =
    | Request(token: string, pick: string, action: Action, sqlOk: bool)
    | Startup(id: string)
    | AdminCreate(id: string, row: Row)
    | AdminUpdate(id: string, patch: SqlPatch.UpdateInput, accepted: bool)
    | AdminDelete(id: string)
    | DeleteUserComplete(id: string)

  function Apply(s: State, op: Op): State {
    match op
    case Request(token, pick, a, sqlOk) => Requested(s, token, pick, a, sqlOk)
    case Startup(id) =>
      if id in s.rows && s.rows[id].mediaDelivery.Some? then
        s.(cache := s.cache[s.rows[id].token := Fill(id, s.rows[id])])
      else s
    case AdminCreate(id, row) => Created(s, id, row)
    case AdminUpdate(id, u, accepted) => Updated(s, id, u, accepted)
    case AdminDelete(id) => s.(rows := s.rows - {id})
    case DeleteUserComplete(id) =>
      if id in s.rows then s.(rows := s.rows - {id}, cache := s.cache - {s.rows[id].token}) else s
  }

  function Run(s: State, ops: seq<Op>): State {
    if ops == [] then s else Apply(Run(s, ops[..|ops| - 1]), ops[|ops| - 1])
  }

  // ---------------------------------------------------------------------
  // Coherence
  // ---------------------------------------------------------------------

  /** Every cached entry belongs to an existing row that holds its token, and equals what that row would fill. */
  ghost predicate Coherent(s: State) {
    forall t <- s.cache :: EntryMatches(s, t)
  }

  ghost predicate EntryMatches(s: State, t: string)
    requires t in s.cache
  {
    var i := s.cache[t];
    i.id in s.rows && s.rows[i.id].token == t && i == Fill(i.id, s.rows[i.id])
  }

  /** The actions that write both sides alike. */
  predicate WritesBothSides(a: Action, sqlOk: bool) {
    match a
    case Connect(_) => sqlOk
    case Disconnect => sqlOk
    case SetWebhook(_, events) => events != []
    case UpdateWebhook(_, events, _) => events != []
    case DeleteS3Config => false
    case _ => true
  }

  predicate Safe(op: Op) {
    match op
    case Request(_, _, a, sqlOk) => (!sqlOk && !IgnoresSqlError(a)) || WritesBothSides(a, sqlOk)
    case AdminDelete(_) => false
    case _ => true
  }

  /** Filling commutes with a matched pair of writes. */
  lemma FillTracksAction(id: string, row: Row, a: Action, sqlOk: bool)
    requires WritesBothSides(a, sqlOk)
    ensures Fill(id, RowAfter(row, a)) == InfoAfter(Fill(id, row), a)
    ensures RowAfter(row, a).token == row.token
  {
  }

  lemma AuthenticatedKeeps(s: State, token: string, pick: string)
    requires Coherent(s)
    ensures Coherent(Authenticated(s, token, pick))
  {
  }

  lemma HandledKeeps(s: State, token: string, a: Action, sqlOk: bool)
    requires Coherent(s) && token in s.cache
    requires (!sqlOk && !IgnoresSqlError(a)) || WritesBothSides(a, sqlOk)
    ensures Coherent(Handled(s, token, a, sqlOk))
  {
    if sqlOk && !a.RefreshHistory? {
      var i := s.cache[token];
      FillTracksAction(i.id, s.rows[i.id], a, sqlOk);
    }
  }

  lemma ApplyKeeps(s: State, op: Op)
    requires Coherent(s) && s.rows.Keys <= s.used && Safe(op)
    ensures Coherent(Apply(s, op)) && Apply(s, op).rows.Keys <= Apply(s, op).used
  {
    if op.Request? {
      AuthenticatedKeeps(s, op.token, op.pick);
      var t := Authenticated(s, op.token, op.pick);
      if op.token in t.cache {
        HandledKeeps(t, op.token, op.action, op.sqlOk);
      }
    }
  }

  ghost predicate Init(s: State) {
    s.cache == map[] && s.rows.Keys <= s.used
  }

  ghost predicate AllSafe(ops: seq<Op>) {
    forall op <- ops :: Safe(op)
  }

  /**
    Over every run of requests and admin operations that write both sides, each
    cached token leads to an existing row that holds this token, with the same
    webhook, events, proxy, history, S3 switch and media delivery.
   */
  lemma {:induction false} CacheCoherence(s: State, ops: seq<Op>)
    requires Init(s) && AllSafe(ops)
    ensures Coherent(Run(s, ops)) && Run(s, ops).rows.Keys <= Run(s, ops).used
    decreases |ops|
  {
    if ops != [] {
      var n := |ops| - 1;
      assert forall op <- ops[..n] :: op in ops;
      CacheCoherence(s, ops[..n]);
      assert ops[n] in ops;
      ApplyKeeps(Run(s, ops[..n]), ops[n]);
    }
  }

  // ---------------------------------------------------------------------
  // The steps that write one side only: exactly when they do no harm
  // ---------------------------------------------------------------------

  /** In a coherent state an id is cached under at most one token, its row's. */
  lemma OneEntryPerUser(s: State, t: string, u: string)
    requires Coherent(s) && t in s.cache && u in s.cache && s.cache[t].id == s.cache[u].id
    ensures t == u
  {
  }

  /** After a handler, the state is coherent exactly when the entry it wrote matches its row. */
  lemma CoherentIffEntryMatches(s: State, token: string, a: Action, sqlOk: bool)
    requires Coherent(s) && token in s.cache && !a.RefreshHistory? && (sqlOk || IgnoresSqlError(a))
    ensures var i := s.cache[token];
            Coherent(Handled(s, token, a, sqlOk)) <==>
            InfoAfter(i, a) == Fill(i.id, if sqlOk then RowAfter(s.rows[i.id], a) else s.rows[i.id])
  {
    var i, t := s.cache[token], Handled(s, token, a, sqlOk);
    assert t.cache[token] == InfoAfter(i, a);
    if InfoAfter(i, a) == Fill(i.id, if sqlOk then RowAfter(s.rows[i.id], a) else s.rows[i.id]) {
      forall u | u in t.cache
        ensures var j := t.cache[u]; j.id in t.rows && t.rows[j.id].token == u && j == Fill(j.id, t.rows[j.id])
      {
        if u != token && s.cache[u].id == i.id {
          OneEntryPerUser(s, token, u);
        }
      }
    } else {
      assert t.cache[token] != Fill(i.id, t.rows[i.id]);
    }
  }

  /** SetWebhook without events blanks the cached events but not the column. */
  lemma SetWebhookWithoutEvents(s: State, token: string, url: string)
    requires Coherent(s) && token in s.cache
    ensures Coherent(Handled(s, token, SetWebhook(url, []), true)) <==> s.cache[token].events == ""
  {
    CoherentIffEntryMatches(s, token, SetWebhook(url, []), true);
  }

  lemma UpdateWebhookWithoutEvents(s: State, token: string, url: string, active: bool)
    requires Coherent(s) && token in s.cache
    ensures Coherent(Handled(s, token, UpdateWebhook(url, [], active), true)) <==> s.cache[token].events == ""
  {
    CoherentIffEntryMatches(s, token, UpdateWebhook(url, [], active), true);
  }

  /** DeleteS3Config never writes the cache. */
  lemma DeleteS3ConfigStale(s: State, token: string)
    requires Coherent(s) && token in s.cache
    ensures Coherent(Handled(s, token, DeleteS3Config, true)) <==>
            s.cache[token].s3Enabled == "false" && s.cache[token].mediaDelivery == "base64"
  {
    CoherentIffEntryMatches(s, token, DeleteS3Config, true);
  }

  /** Connect writes the cache even when its UPDATE failed. */
  lemma ConnectSqlFailure(s: State, token: string, subscribe: seq<string>)
    requires Coherent(s) && token in s.cache
    ensures Coherent(Handled(s, token, Connect(subscribe), false)) <==>
            s.cache[token].events == Events.Stored(subscribe, Events.Supported)
  {
    CoherentIffEntryMatches(s, token, Connect(subscribe), false);
  }

  /** When a handler leaves a coherent state coherent, read off the request and the cached entry. */
  predicate Harmless(i: Info, a: Action, sqlOk: bool) {
    match a
    case Connect(subscribe) => sqlOk || i.events == Events.Stored(subscribe, Events.Supported)
    case Disconnect => sqlOk || i.events == ""
    case SetWebhook(_, events) => !sqlOk || events != [] || i.events == ""
    case UpdateWebhook(_, events, _) => !sqlOk || events != [] || i.events == ""
    case DeleteS3Config => !sqlOk || (i.s3Enabled == "false" && i.mediaDelivery == "base64")
    case _ => true
  }

  lemma DisconnectSqlFailure(s: State, token: string)
    requires Coherent(s) && token in s.cache
    ensures Coherent(Handled(s, token, Disconnect, false)) <==> s.cache[token].events == ""
  {
    CoherentIffEntryMatches(s, token, Disconnect, false);
  }

  /** Every handler, with its UPDATE succeeding or failing: it keeps the cache coherent exactly when it is harmless. */
  lemma HandledCoherentIff(s: State, token: string, a: Action, sqlOk: bool)
    requires Coherent(s) && token in s.cache
    ensures Coherent(Handled(s, token, a, sqlOk)) <==> Harmless(s.cache[token], a, sqlOk)
  {
    if (!sqlOk && !IgnoresSqlError(a)) || WritesBothSides(a, sqlOk) {
      HandledKeeps(s, token, a, sqlOk);
    } else {
      match a
      case Connect(subscribe) => ConnectSqlFailure(s, token, subscribe);
      case Disconnect => DisconnectSqlFailure(s, token);
      case SetWebhook(url, _) => SetWebhookWithoutEvents(s, token, url);
      case UpdateWebhook(url, _, active) => UpdateWebhookWithoutEvents(s, token, url, active);
      case DeleteS3Config => DeleteS3ConfigStale(s, token);
    }
  }

  /** Row id goes, and with it whatever is cached under `dropped`. */
  function Gone(s: State, id: string, dropped: set<string>): State {
    s.(rows := s.rows - {id}, cache := s.cache - dropped)
  }

  lemma GoneCoherentIff(s: State, id: string, dropped: set<string>)
    requires Coherent(s) && id in s.rows
    ensures Coherent(Gone(s, id, dropped)) <==>
            s.rows[id].token in dropped || !(s.rows[id].token in s.cache && s.cache[s.rows[id].token].id == id)
  {
    var t := Gone(s, id, dropped);
    var token := s.rows[id].token;
    if token in s.cache && s.cache[token].id == id && token !in dropped {
      assert t.cache[token].id !in t.rows;
    } else {
      forall u | u in t.cache
        ensures EntryMatches(t, u)
      {
        assert EntryMatches(s, u);
        assert s.cache[u].id != id;
      }
    }
  }

  /** The plain admin delete leaves the cache alone, so the deleted user stays logged in if cached. */
  lemma AdminDeleteStale(s: State, id: string)
    requires Coherent(s) && id in s.rows
    ensures Coherent(Apply(s, AdminDelete(id))) <==>
            !(s.rows[id].token in s.cache && s.cache[s.rows[id].token].id == id)
  {
    GoneCoherentIff(s, id, {});
    assert s.cache - {} == s.cache;
  }

  // ---------------------------------------------------------------------
  // A request that overlaps an admin update
  // ---------------------------------------------------------------------

  lemma UpdatedKeeps(s: State, id: string, u: SqlPatch.UpdateInput, accepted: bool)
    requires Coherent(s)
    ensures Coherent(Updated(s, id, u, accepted))
  {
    var t := Updated(s, id, u, accepted);
    forall k | k in t.cache
      ensures EntryMatches(t, k)
    {
      assert EntryMatches(s, k);
    }
  }

  /** Row and entry of a user without any entry are written: the entry has to be what the row fills. */
  lemma RevivedCoherentIff(t: State, id: string, token: string, row: Row, i: Info)
    requires Coherent(t) && token !in t.cache && id in t.rows
    requires forall k <- t.cache :: t.cache[k].id != id
    requires i.id == id && i.token == token
    ensures Coherent(t.(rows := t.rows[id := row], cache := t.cache[token := i])) <==> i == Fill(id, row)
  {
    var late := t.(rows := t.rows[id := row], cache := t.cache[token := i]);
    if i == Fill(id, row) {
      forall k | k in late.cache
        ensures EntryMatches(late, k)
      {
        assert k != token ==> EntryMatches(t, k);
      }
    } else {
      assert late.cache[token] == i && late.rows[id] == row;
      assert !EntryMatches(late, token);
    }
  }

  /** After the hook has dropped a cached user's entry, none for that user is left. */
  lemma HookDropsUser(s: State, token: string, u: SqlPatch.UpdateInput)
    requires Coherent(s) && token in s.cache
    ensures var t := Updated(s, s.cache[token].id, u, true);
            Coherent(t) && token !in t.cache && s.cache[token].id in t.rows
            && forall k <- t.cache :: t.cache[k].id != s.cache[token].id
  {
    var id := s.cache[token].id;
    assert EntryMatches(s, token);
    UpdatedKeeps(s, id, u, true);
    forall k | k in Updated(s, id, u, true).cache
      ensures s.cache[k].id != id
    {
      assert EntryMatches(s, k);
    }
  }

  lemma ActionKeepsIdentity(i: Info, a: Action)
    ensures InfoAfter(i, a).id == i.id && InfoAfter(i, a).token == i.token
  {
  }

  /**
    Coherence also needs a request to run as one step. A request authenticated
    before an admin update writes its entry after it: the state is then coherent
    exactly when that entry is what the patched row would fill.
   */
  lemma LateEntryIff(s: State, token: string, u: SqlPatch.UpdateInput, a: Action)
    requires Coherent(s) && token in s.cache
    ensures var id := s.cache[token].id;
            var t := Updated(s, id, u, true);
            var entry := InfoAfter(s.cache[token], a);
            Coherent(t) && id in t.rows
            && (Coherent(t.(cache := t.cache[token := entry])) <==> entry == Fill(id, t.rows[id]))
  {
    var id := s.cache[token].id;
    var t := Updated(s, id, u, true);
    var entry := InfoAfter(s.cache[token], a);
    HookDropsUser(s, token, u);
    ActionKeepsIdentity(s.cache[token], a);
    assert EntryMatches(s, token);
    RevivedCoherentIff(t, id, token, t.rows[id], entry);
    assert t.rows[id := t.rows[id]] == t.rows;
  }

  /** The same when the request's UPDATE comes after the admin's as well. */
  lemma LateHandlerIff(s: State, token: string, u: SqlPatch.UpdateInput, a: Action)
    requires Coherent(s) && token in s.cache
    ensures var id := s.cache[token].id;
            var t := Updated(s, id, u, true);
            var entry := InfoAfter(s.cache[token], a);
            id in t.rows
            && (Coherent(t.(rows := t.rows[id := RowAfter(t.rows[id], a)], cache := t.cache[token := entry])) <==>
                entry == Fill(id, RowAfter(t.rows[id], a)))
  {
    var id := s.cache[token].id;
    var t := Updated(s, id, u, true);
    HookDropsUser(s, token, u);
    ActionKeepsIdentity(s.cache[token], a);
    assert EntryMatches(s, token);
    RevivedCoherentIff(t, id, token, RowAfter(t.rows[id], a), InfoAfter(s.cache[token], a));
  }

  /**
    For the entry authentication itself puts in the cache, that means: harmless
    exactly when the patch changes nothing that is cached. A new token never is.
   */
  lemma LateFillIff(s: State, token: string, u: SqlPatch.UpdateInput)
    requires Coherent(s) && token in s.cache
    ensures var id := s.cache[token].id;
            var t := Updated(s, id, u, true);
            id in s.rows
            && (Coherent(t.(cache := t.cache[token := s.cache[token]])) <==>
                Fill(id, PatchedRow(s.rows[id], u)) == Fill(id, s.rows[id]))
            && (u.token != "" && u.token != token ==> !Coherent(t.(cache := t.cache[token := s.cache[token]])))
  {
    assert EntryMatches(s, token);
    LateEntryIff(s, token, u, Read);
  }

  // ---------------------------------------------------------------------
  // The patch seen from the cache agrees with the compiled UPDATE
  // ---------------------------------------------------------------------

  /** A cached column of a row as the database value it stands for; NULL is None. */
  function Cell(row: Row, c: SqlPatch.Column): Option<SqlPatch.Value> {
    match c
    case Token => Some(SqlPatch.Text(row.token))
    case Webhook => Some(SqlPatch.Text(row.webhook))
    case Events => Some(SqlPatch.Text(row.events))
    case ProxyUrl => Some(SqlPatch.Text(row.proxy))
    case History => (match row.history case None => None case Some(n) => Some(SqlPatch.Int(n)))
    case S3Enabled => (match row.s3Enabled case None => None case Some(b) => Some(SqlPatch.Flag(b)))
    case MediaDelivery => (match row.mediaDelivery case None => None case Some(m) => Some(SqlPatch.Text(m)))
    case _ => None
  }

  predicate Cached(c: SqlPatch.Column) {
    c.Token? || c.Webhook? || c.Events? || c.ProxyUrl? || c.History? || c.S3Enabled? || c.MediaDelivery?
  }

  /** PatchedRow does to the cached columns what SqlPatch.CompilationPreservesMeaning proves of the UPDATE. */
  lemma PatchedRowFollowsPatch(row: Row, u: SqlPatch.UpdateInput, c: SqlPatch.Column)
    requires Cached(c)
    ensures Cell(PatchedRow(row, u), c) ==
            match SqlPatch.Patch(u, c) case Some(v) => Some(v) case None => Cell(row, c)
  {
  }

  // ---------------------------------------------------------------------
  // The code
  // ---------------------------------------------------------------------

  /** The part of SetWebhook and UpdateWebhook that drops unsupported events. */
  method KeepSupported(events: seq<string>) returns (eventstring: string)
    ensures eventstring == JoinSupported(events)
  {
    var validEvents: seq<string> := [];
    for i := 0 to |events|
      invariant validEvents == Events.Filter(events[..i], Events.Supported)
    {
      assert events[..i + 1] == events[..i] + [events[i]];
      Events.FilterSnoc(events[..i], events[i], Events.Supported);
      if Events.Supported(events[i]) {
        validEvents := validEvents + [events[i]];
      }
    }
    assert events[..|events|] == events;
    eventstring := Text.Join(validEvents);
  }

  /**
    The handlers, with the users table and userinfocache as fields. `sessions`
    are the WhatsApp clients: an id that is present has one, connected or not.
    `sqlOk` is the outcome of the UPDATE. `accepted` is false when the handler
    turns the request away before its first statement.
   */
  class Server {
    var rows: map<string, Row>
    var cache: map<string, Info>
    var sessions: map<string, bool>
    ghost var used: set<string>

    ghost function View(): State
      reads this
    {
      State(rows, cache, used)
    }

    predicate Connected(id: string)
      reads this
    {
      id in sessions && sessions[id]
    }

    method Authalice(token: string, pick: string) returns (authorized: bool)
      modifies this`cache
      ensures View() == Authenticated(old(View()), token, pick)
      ensures authorized <==> token in cache
      ensures token in old(cache) ==> cache == old(cache)
      ensures token !in old(cache) ==> (authorized <==> pick in rows && rows[pick].token == token)
      ensures token !in old(cache) && authorized ==>
                cache == old(cache)[token := cache[token]] && Mirrors(cache[token], pick, token, rows[pick])
      ensures Coherent(old(View())) ==> Coherent(View())
    {
      if token in cache {
        return true;
      }
      if pick !in rows || rows[pick].token != token {
        return false;
      }
      var row := rows[pick];
      var historyStr := "0";
      if row.history.Some? {
        historyStr := Itoa(row.history.value);
      }
      var s3Enabled := if row.s3Enabled == Some(true) then "true" else "false";
      var mediaDelivery := if row.mediaDelivery.Some? then row.mediaDelivery.value else "base64";
      var v := Info(pick, token, row.webhook, row.events, row.proxy, historyStr, s3Enabled, mediaDelivery);
      cache := cache[token := v];
      return true;
    }

    /** One row of connectOnStartup: the user's entry is set from the row, whatever was cached. */
    method StartOne(id: string)
      requires id in rows && rows[id].mediaDelivery.Some?
      modifies this`cache
      ensures rows[id].token in cache && Mirrors(cache[rows[id].token], id, rows[id].token, rows[id])
      ensures cache == old(cache)[rows[id].token := cache[rows[id].token]]
      ensures View() == Apply(old(View()), Startup(id))
      ensures Coherent(old(View())) ==> Coherent(View())
    {
      var row := rows[id];
      ghost var before := View();
      var history := if row.history.Some? then Itoa(row.history.value) else Itoa(0);
      var s3Enabled := if row.s3Enabled == Some(true) then "true" else "false";
      var v := Info(id, row.token, row.webhook, row.events, row.proxy, history, s3Enabled, row.mediaDelivery.value);
      cache := cache[row.token := v];
      StartupKeeps(before, id, v, View());
    }

    /** GetHistory, as far as the cache goes: `limit` is what Atoi makes of the cached history. */
    method GetHistory(token: string, limit: int)
      requires token in cache
      modifies this`cache
      ensures cache == if limit == 0 then old(cache) - {token} else old(cache)
      ensures limit == 0 ==> View() == Handled(old(View()), token, RefreshHistory, true)
      ensures Coherent(old(View())) ==> Coherent(View())
    {
      if limit == 0 {
        cache := cache - {token};
      }
    }

    /** UPDATE users SET ... WHERE id = ...: no row, no change. */
    method WriteRow(id: string, row: Row)
      modifies this`rows
      ensures rows == if id in old(rows) then old(rows)[id := row] else old(rows)
    {
      if id in rows {
        rows := rows[id := row];
      }
    }

    method Connect(token: string, subscribe: seq<string>, sqlOk: bool) returns (accepted: bool)
      requires token in cache
      modifies this`rows, this`cache
      ensures accepted <==> !Connected(old(cache)[token].id)
      ensures accepted ==> View() == Handled(old(View()), token, Action.Connect(subscribe), sqlOk)
      ensures accepted ==>
                var i, events := old(cache)[token], Events.Stored(subscribe, Events.Supported);
                && cache == old(cache)[token := i.(events := events)]
                && rows == if sqlOk && i.id in old(rows) then old(rows)[i.id := old(rows)[i.id].(events := events)] else old(rows)
      ensures !accepted ==> View() == old(View())
      ensures Coherent(old(View())) ==>
                (Coherent(View()) <==> !accepted || Harmless(old(cache)[token], Action.Connect(subscribe), sqlOk))
    {
      var info := cache[token];
      if Connected(info.id) {
        return false;
      }
      ghost var before := View();
      var eventstring := Events.StoreSubscription(subscribe, Events.Supported);
      if sqlOk && info.id in rows {
        WriteRow(info.id, rows[info.id].(events := eventstring));
      }
      cache := cache[token := info.(events := eventstring)];
      Decided(before, token, Action.Connect(subscribe), sqlOk);
      return true;
    }

    method Disconnect(token: string, sqlOk: bool) returns (accepted: bool)
      requires token in cache
      modifies this`rows, this`cache, this`sessions
      ensures accepted <==> old(Connected(cache[token].id))
      ensures accepted ==> View() == Handled(old(View()), token, Action.Disconnect, sqlOk)
      ensures accepted ==>
                var i := old(cache)[token];
                && cache == old(cache)[token := i.(events := "")]
                && rows == if sqlOk && i.id in old(rows) then old(rows)[i.id := old(rows)[i.id].(events := "")] else old(rows)
      ensures accepted ==> sessions == old(sessions) - {old(cache)[token].id}
      ensures !accepted ==> View() == old(View()) && sessions == old(sessions)
      ensures Coherent(old(View())) ==>
                (Coherent(View()) <==> !accepted || Harmless(old(cache)[token], Action.Disconnect, sqlOk))
    {
      var info := cache[token];
      if info.id !in sessions || !sessions[info.id] {
        return false;
      }
      ghost var before := View();
      if sqlOk && info.id in rows {
        WriteRow(info.id, rows[info.id].(events := ""));
      }
      cache := cache[token := info.(events := "")];
      sessions := sessions - {info.id};
      Decided(before, token, Action.Disconnect, sqlOk);
      return true;
    }

    method DeleteWebhook(token: string, sqlOk: bool)
      requires token in cache
      modifies this`rows, this`cache
      ensures View() == Handled(old(View()), token, Action.DeleteWebhook, sqlOk)
      ensures sqlOk ==>
                var i := old(cache)[token];
                && cache == old(cache)[token := i.(webhook := "", events := "")]
                && rows == if i.id in old(rows) then old(rows)[i.id := old(rows)[i.id].(webhook := "", events := "")] else old(rows)
      ensures !sqlOk ==> View() == old(View())
      ensures Coherent(old(View())) ==> Coherent(View())
    {
      if !sqlOk {
        return;
      }
      ghost var before := View();
      var info := cache[token];
      if info.id in rows {
        WriteRow(info.id, rows[info.id].(webhook := "", events := ""));
      }
      cache := cache[token := info.(webhook := "", events := "")];
      Decided(before, token, Action.DeleteWebhook, sqlOk);
    }

    method SetWebhook(token: string, url: string, events: seq<string>, sqlOk: bool)
      requires token in cache
      modifies this`rows, this`cache
      ensures View() == Handled(old(View()), token, Action.SetWebhook(url, events), sqlOk)
      ensures sqlOk && events == [] ==>
                var i := old(cache)[token];
                && cache == old(cache)[token := i.(webhook := url, events := "")]
                && rows == if i.id in old(rows) then old(rows)[i.id := old(rows)[i.id].(webhook := url)] else old(rows)
      ensures sqlOk && events != [] ==>
                var i, kept := old(cache)[token], Text.Join(Events.Filter(events, Events.Supported));
                && cache == old(cache)[token := i.(webhook := url, events := kept)]
                && rows == if i.id in old(rows) then old(rows)[i.id := old(rows)[i.id].(webhook := url, events := kept)] else old(rows)
      ensures !sqlOk ==> View() == old(View())
      ensures Coherent(old(View())) ==>
                (Coherent(View()) <==> Harmless(old(cache)[token], Action.SetWebhook(url, events), sqlOk))
    {
      ghost var before := View();
      var info := cache[token];
      var eventstring := "";
      if |events| > 0 {
        eventstring := KeepSupported(events);
      }
      if !sqlOk {
        return;
      }
      if info.id in rows {
        if |events| > 0 {
          WriteRow(info.id, rows[info.id].(webhook := url, events := eventstring));
        } else {
          WriteRow(info.id, rows[info.id].(webhook := url));
        }
      }
      cache := cache[token := info.(webhook := url, events := eventstring)];
      Decided(before, token, Action.SetWebhook(url, events), sqlOk);
    }

    method UpdateWebhook(token: string, url: string, events: seq<string>, active: bool, sqlOk: bool)
      requires token in cache
      modifies this`rows, this`cache
      ensures View() == Handled(old(View()), token, Action.UpdateWebhook(url, events, active), sqlOk)
      ensures sqlOk ==>
                var i, kept := old(cache)[token], Text.Join(Events.Filter(events, Events.Supported));
                && (active ==> cache == old(cache)[token := i.(webhook := url, events := kept)])
                && (!active ==> cache == old(cache)[token := i.(webhook := "", events := "")])
      ensures sqlOk && old(cache)[token].id in old(rows) ==>
                var id, kept := old(cache)[token].id, Text.Join(Events.Filter(events, Events.Supported));
                && rows == old(rows)[id := rows[id]]
                && rows[id] == old(rows)[id].(webhook := rows[id].webhook, events := rows[id].events)
                && rows[id].webhook == (if active then url else "")
                && rows[id].events == if events == [] then old(rows)[id].events else if active then kept else ""
      ensures !sqlOk ==> View() == old(View())
      ensures Coherent(old(View())) ==>
                (Coherent(View()) <==> Harmless(old(cache)[token], Action.UpdateWebhook(url, events, active), sqlOk))
    {
      ghost var before := View();
      var info := cache[token];
      var webhook := url;
      var eventstring := KeepSupported(events);
      if !active {
        webhook, eventstring := "", "";
      }
      if !sqlOk {
        return;
      }
      if info.id in rows {
        if |events| > 0 {
          WriteRow(info.id, rows[info.id].(webhook := webhook, events := eventstring));
        } else {
          WriteRow(info.id, rows[info.id].(webhook := webhook));
        }
      }
      cache := cache[token := info.(webhook := webhook, events := eventstring)];
      Decided(before, token, Action.UpdateWebhook(url, events, active), sqlOk);
    }

    method SetHistory(token: string, limit: int, sqlOk: bool) returns (accepted: bool)
      requires token in cache
      modifies this`rows, this`cache
      ensures accepted <==> old(cache)[token].id in sessions && limit >= 0
      ensures accepted ==> View() == Handled(old(View()), token, Action.SetHistory(limit), sqlOk)
      ensures accepted && sqlOk ==>
                var i, text := old(cache)[token], cache[token].history;
                && Canonical(text) && ValueOf(text) == limit && cache == old(cache)[token := i.(history := text)]
                && rows == if i.id in old(rows) then old(rows)[i.id := old(rows)[i.id].(history := Some(limit))] else old(rows)
      ensures !sqlOk ==> View() == old(View())
      ensures !accepted ==> View() == old(View())
      ensures Coherent(old(View())) ==> Coherent(View())
    {
      var info := cache[token];
      if info.id !in sessions {
        return false;
      }
      if limit < 0 {
        return false;
      }
      if !sqlOk {
        return true;
      }
      ghost var before := View();
      if info.id in rows {
        WriteRow(info.id, rows[info.id].(history := Some(limit)));
      }
      cache := cache[token := info.(history := Itoa(limit))];
      ItoaReadsBack(limit);
      Decided(before, token, Action.SetHistory(limit), sqlOk);
      return true;
    }

    /** `scheme` is what url.Parse finds, or None when it fails. */
    method SetProxy(token: string, url: string, scheme: Option<string>, enable: bool, sqlOk: bool) returns (accepted: bool)
      requires token in cache
      modifies this`rows, this`cache
      ensures accepted <==> !Connected(old(cache)[token].id) &&
                            (enable ==> url != "" && (scheme == Some("http") || scheme == Some("socks5")))
      ensures accepted ==> View() == Handled(old(View()), token, Action.SetProxy(url, enable), sqlOk)
      ensures accepted && sqlOk ==>
                var i, proxy := old(cache)[token], if enable then url else "";
                && cache == old(cache)[token := i.(proxy := proxy)]
                && rows == if i.id in old(rows) then old(rows)[i.id := old(rows)[i.id].(proxy := proxy)] else old(rows)
      ensures !sqlOk ==> View() == old(View())
      ensures !accepted ==> View() == old(View())
      ensures Coherent(old(View())) ==> Coherent(View())
    {
      var info := cache[token];
      if Connected(info.id) {
        return false;
      }
      if enable {
        if url == "" || scheme.None? {
          return false;
        }
        if scheme.value != "http" && scheme.value != "socks5" {
          return false;
        }
      }
      if !sqlOk {
        return true;
      }
      ghost var before := View();
      var proxy := if enable then url else "";
      if info.id in rows {
        WriteRow(info.id, rows[info.id].(proxy := proxy));
      }
      cache := cache[token := info.(proxy := proxy)];
      Decided(before, token, Action.SetProxy(url, enable), sqlOk);
      return true;
    }

    method ConfigureS3(token: string, enabled: bool, media: string, sqlOk: bool) returns (accepted: bool)
      requires token in cache
      modifies this`rows, this`cache
      ensures accepted <==> ValidDelivery(media)
      ensures accepted ==> View() == Handled(old(View()), token, Action.ConfigureS3(enabled, media), sqlOk)
      ensures accepted <==> media == "" || media == "base64" || media == "s3" || media == "both"
      ensures accepted && sqlOk ==>
                var i, delivery, flag := old(cache)[token], if media == "" then "base64" else media, if enabled then "true" else "false";
                && cache == old(cache)[token := i.(s3Enabled := flag, mediaDelivery := delivery)]
                && rows == if i.id in old(rows)
                           then old(rows)[i.id := old(rows)[i.id].(s3Enabled := Some(enabled), mediaDelivery := Some(delivery))]
                           else old(rows)
      ensures !sqlOk ==> View() == old(View())
      ensures !accepted ==> View() == old(View())
      ensures Coherent(old(View())) ==> Coherent(View())
    {
      if media != "" && media != "base64" && media != "s3" && media != "both" {
        return false;
      }
      var delivery := if media == "" then "base64" else media;
      if !sqlOk {
        return true;
      }
      ghost var before := View();
      var info := cache[token];
      if info.id in rows {
        WriteRow(info.id, rows[info.id].(s3Enabled := Some(enabled), mediaDelivery := Some(delivery)));
      }
      cache := cache[token := info.(s3Enabled := FormatBool(enabled), mediaDelivery := delivery)];
      Decided(before, token, Action.ConfigureS3(enabled, media), sqlOk);
      return true;
    }

    /** DeleteS3Config resets the columns and leaves the cache as it is. */
    method DeleteS3Config(token: string, sqlOk: bool)
      requires token in cache
      modifies this`rows
      ensures View() == Handled(old(View()), token, Action.DeleteS3Config, sqlOk)
      ensures sqlOk ==>
                var id := cache[token].id;
                rows == if id in old(rows)
                        then old(rows)[id := old(rows)[id].(s3Enabled := Some(false), mediaDelivery := Some("base64"))]
                        else old(rows)
      ensures !sqlOk ==> View() == old(View())
      ensures Coherent(old(View())) ==>
                (Coherent(View()) <==> Harmless(old(cache)[token], Action.DeleteS3Config, sqlOk))
    {
      ghost var before := View();
      Decided(before, token, Action.DeleteS3Config, sqlOk);
      assert cache[token := cache[token]] == cache;
      if !sqlOk {
        return;
      }
      var id := cache[token].id;
      if id in rows {
        WriteRow(id, rows[id].(s3Enabled := Some(false), mediaDelivery := Some("base64")));
      }
    }

    /**
      Service.Create with a generated id. It is refused for an unsupported event
      or a token that is taken. The proxy URL is stored whether or not the proxy
      is enabled.
     */
    method CreateUser(id: string, token: string, webhook: string, events: string, proxy: SqlPatch.ProxyConfig,
                      history: int, s3: S3Config, sqlOk: bool)
      returns (ok: bool)
      requires id !in used && rows.Keys <= used
      modifies this`rows, this`used
      ensures ok <==> Events.Accepted(events) && (forall k <- old(rows) :: old(rows)[k].token != token) && sqlOk
      ensures ok ==>
                && id in rows && rows == old(rows)[id := rows[id]] && used == old(used) + {id}
                && rows[id].token == token && rows[id].webhook == webhook && rows[id].events == events
                && rows[id].proxy == proxy.proxyURL && rows[id].history == Some(history)
                && rows[id].s3Enabled == Some(s3.enabled) && rows[id].mediaDelivery == Some(s3.mediaDelivery)
      ensures ok ==> View() == Created(old(View()), id, rows[id])
      ensures !ok ==> View() == old(View())
      ensures Coherent(old(View())) ==> Coherent(View())
    {
      var verdict := Events.ValidateEvents(events);
      if verdict.Invalid? {
        return false;
      }
      var taken := exists k <- rows :: rows[k].token == token;
      if taken || !sqlOk {
        return false;
      }
      ghost var before := View();
      var row := Row(token, webhook, events, proxy.proxyURL, Some(history), Some(s3.enabled), Some(s3.mediaDelivery));
      rows := rows[id := row];
      used := used + {id};
      CreatedKeeps(before, id, row);
      return true;
    }

    /**
      Service.Update with the hook of users_adapter.go. It is refused for an
      unknown id, an unsupported event or a patch that changes nothing, and stops
      when a statement fails.
     */
    method UpdateUser(id: string, u: SqlPatch.UpdateInput, sqlOk: bool) returns (ok: bool)
      modifies this`rows, this`cache
      ensures ok <==> id in old(rows) && Events.Accepted(u.events) && SqlPatch.ChangesSomething(u) && sqlOk
      ensures View() == Updated(old(View()), id, u, ok)
      ensures ok ==>
                var was, now := old(rows)[id], rows[id];
                rows == old(rows)[id := now] && cache == old(cache) - {was.token, now.token} && FollowsPatch(was, now, u)
      ensures Coherent(old(View())) ==> Coherent(View())
    {
      ghost var before := View();
      if id !in rows {
        return false;
      }
      var verdict := Events.ValidateEvents(u.events);
      if verdict.Invalid? {
        return false;
      }
      var oldToken := rows[id].token;
      var fields := SqlPatch.BuildUpdateFields(u);
      SqlPatch.NoFieldsIffNoPatch(u);
      if |fields| == 0 || !sqlOk {
        return false;
      }
      PatchedRowFollows(rows[id], u);
      rows := rows[id := PatchedRow(rows[id], u)];
      var newToken := if u.token != "" then u.token else oldToken;
      cache := cache - {oldToken};
      if newToken != "" && newToken != oldToken {
        cache := cache - {newToken};
      }
      assert View() == Updated(before, id, u, true);
      if Coherent(before) {
        UpdatedKeeps(before, id, u, true);
      }
      return true;
    }

    /**
      DeleteUserComplete. When reading the token fails (`infoOk` is false) it goes
      on with an empty one, and the entry of the deleted user stays cached.
     */
    method DeleteUserComplete(id: string, infoOk: bool, sqlOk: bool) returns (ok: bool)
      modifies this`rows, this`cache
      ensures ok <==> id in old(rows) && sqlOk
      ensures ok ==> rows == old(rows) - {id} && cache == old(cache) - {if infoOk then old(rows)[id].token else ""}
      ensures !ok ==> View() == old(View())
      ensures ok && infoOk ==> View() == Apply(old(View()), Op.DeleteUserComplete(id))
      ensures ok && Coherent(old(View())) ==>
                var token := old(rows)[id].token;
                (Coherent(View()) <==>
                 infoOk || token == "" || !(token in old(cache) && old(cache)[token].id == id))
    {
      ghost var before := View();
      if id !in rows {
        return false;
      }
      var token := "";
      if infoOk {
        token := rows[id].token;
      }
      if !sqlOk {
        return false;
      }
      rows := rows - {id};
      cache := cache - {token};
      if Coherent(before) {
        GoneCoherentIff(before, id, {token});
      }
      return true;
    }
  }

  lemma StartupKeeps(before: State, id: string, v: Info, after: State)
    requires id in before.rows && before.rows[id].mediaDelivery.Some?
    requires Mirrors(v, id, before.rows[id].token, before.rows[id])
    requires after == before.(cache := before.cache[before.rows[id].token := v])
    ensures after == Apply(before, Startup(id))
    ensures Coherent(before) ==> Coherent(after)
  {
    FillMirrors(id, before.rows[id]);
    assert v == Fill(id, before.rows[id]);
    if Coherent(before) {
      forall k | k in after.cache
        ensures EntryMatches(after, k)
      {
        assert k != before.rows[id].token ==> EntryMatches(before, k);
      }
    }
  }

  lemma CreatedKeeps(s: State, id: string, row: Row)
    ensures Coherent(s) && s.rows.Keys <= s.used ==> Coherent(Created(s, id, row))
  {
    if Coherent(s) && s.rows.Keys <= s.used {
      var t := Created(s, id, row);
      forall k | k in t.cache
        ensures EntryMatches(t, k)
      {
        assert EntryMatches(s, k);
      }
    }
  }

  lemma Decided(s: State, token: string, a: Action, sqlOk: bool)
    requires token in s.cache
    ensures Coherent(s) ==> (Coherent(Handled(s, token, a, sqlOk)) <==> Harmless(s.cache[token], a, sqlOk))
  {
    if Coherent(s) {
      HandledCoherentIff(s, token, a, sqlOk);
    }
  }
}
