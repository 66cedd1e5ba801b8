/**
  The lazily filled S3 client cache of cmd/api/s3manager.go against the S3
  columns of the users table, over every run of the operations that touch
  either side.
 */
module S3Clients {
  import opened Common

  /** What a client was built from. */
  datatype Client = Client(region: string, accessKey: string, secretKey: string, endpoint: string, pathStyle: bool)

  function NewClient(c: S3Config): Client {
    Client(c.region, c.accessKey, c.secretKey, c.endpoint, c.pathStyle)
  }

  /** The client reaches the store that c describes, with c's credentials. */
  predicate BuiltFrom(client: Client, c: S3Config) {
    && client.endpoint == c.endpoint && client.region == c.region && client.pathStyle == c.pathStyle
    && client.accessKey == c.accessKey && client.secretKey == c.secretKey
  }

  /** DeleteS3Config's defaults. */
  const CLEARED := S3Config(false, "", "", "", "", "", true, "", "base64", 30)

  /** `used` are all user ids ever generated; they are random and never generated twice. */
  datatype State = State(rows: map<string, S3Config>, clients: map<string, Client>, configs: map<string, S3Config>, used: set<string>)

  // ---------------------------------------------------------------------
  // The operations as functions of the state
  // ---------------------------------------------------------------------

  function Removed(s: State, id: string): State {
    s.(clients := s.clients - {id}, configs := s.configs - {id})
  }

  function Initialized(s: State, id: string, c: S3Config): State {
    if !c.enabled then Removed(s, id)
    else s.(clients := s.clients[id := NewClient(c)], configs := s.configs[id := c])
  }

  function HasClient(s: State, id: string): bool {
    id in s.clients && id in s.configs
  }

  function Ensured(s: State, id: string): State {
    if HasClient(s, id) || id !in s.rows || !s.rows[id].enabled then s else Initialized(s, id, s.rows[id])
  }

  function EnsureResult(s: State, id: string): bool {
    HasClient(s, id) || (id in s.rows && s.rows[id].enabled)
  }

  /** An UPDATE of the S3 columns; it matches no row for a deleted user. */
  function RowSet(s: State, id: string, c: S3Config): State {
    if id in s.rows then s.(rows := s.rows[id := c]) else s
  }

  /** ConfigureS3 hands the manager a config without media_delivery. */
  function Undelivered(c: S3Config): S3Config {
    c.(mediaDelivery := "")
  }

  datatype Op =
    | Configure(id: string, config: S3Config)
    | TestConnection(id: string)
    | DeleteConfig(id: string)
    | Ensure(id: string)
    | AdminCreate(id: string, config: S3Config)
    | AdminUpdate(id: string, patch: Option<S3Config>)
    | AdminDelete(id: string)
    | DeleteComplete(id: string)

  /** Handlers act on ids of users that exist or once existed; a new user gets an unused id. */
  function Apply(s: State, op: Op): State {
    if op.AdminCreate? then
      if op.id in s.used then s else s.(rows := s.rows[op.id := op.config], used := s.used + {op.id})
    else if op.id !in s.used then s
    else
      match op
      case Configure(id, c) => Initialized(RowSet(s, id, c), id, Undelivered(c))
      case TestConnection(id) =>
        if id in s.rows && s.rows[id].enabled then Initialized(s, id, Undelivered(s.rows[id])) else s
      case DeleteConfig(id) => Removed(RowSet(s, id, CLEARED), id)
      case Ensure(id) => Ensured(s, id)
      case AdminUpdate(id, patch) =>
        if id !in s.rows || patch.None? then s else Initialized(RowSet(s, id, patch.value), id, patch.value)
      case AdminDelete(id) => s.(rows := s.rows - {id})
      case DeleteComplete(id) => s.(rows := s.rows - {id})
  }

  function Run(s: State, ops: seq<Op>): State {
    if ops == [] then s else Apply(Run(s, ops[..|ops| - 1]), ops[|ops| - 1])
  }

  // ---------------------------------------------------------------------
  // Agreement
  // ---------------------------------------------------------------------

  /** Equal but for media_delivery, which not every caller passes on. */
  ghost predicate SameStore(c: S3Config, row: S3Config) {
    c.(mediaDelivery := "") == row.(mediaDelivery := "")
  }

  ghost predicate Agrees(s: State) {
    && s.clients.Keys == s.configs.Keys <= s.used
    && s.rows.Keys <= s.used
    && (forall id <- s.clients :: s.clients[id] == NewClient(s.configs[id]) && s.configs[id].enabled)
    && forall id <- s.clients :: id in s.rows ==> SameStore(s.configs[id], s.rows[id])
  }

  /** Agreement for every user but id, whose row may just have been rewritten. */
  ghost predicate AgreesBut(s: State, id: string) {
    && s.clients.Keys == s.configs.Keys <= s.used
    && s.rows.Keys <= s.used
    && (forall i <- s.clients :: s.clients[i] == NewClient(s.configs[i]) && s.configs[i].enabled)
    && forall i <- s.clients :: i in s.rows && i != id ==> SameStore(s.configs[i], s.rows[i])
  }

  lemma RowSetAgrees(s: State, id: string, c: S3Config)
    requires Agrees(s)
    ensures AgreesBut(RowSet(s, id, c), id)
  {
  }

  /** Installing a client for the row as it is now, or removing it, restores agreement. */
  lemma InitializedAgrees(s: State, id: string, c: S3Config)
    requires AgreesBut(s, id) && id in s.used
    requires c.enabled && id in s.rows ==> SameStore(c, s.rows[id])
    ensures Agrees(Initialized(s, id, c))
  {
  }

  lemma ApplyKeepsAgreement(s: State, op: Op)
    requires Agrees(s)
    ensures Agrees(Apply(s, op))
  {
    if op.id in s.used {
      match op
      case Configure(id, c) =>
        RowSetAgrees(s, id, c);
        InitializedAgrees(RowSet(s, id, c), id, Undelivered(c));
      case TestConnection(id) =>
        if id in s.rows && s.rows[id].enabled {
          InitializedAgrees(s, id, Undelivered(s.rows[id]));
        }
      case DeleteConfig(id) =>
        RowSetAgrees(s, id, CLEARED);
        InitializedAgrees(RowSet(s, id, CLEARED), id, CLEARED);
      case Ensure(id) =>
        if id in s.rows && s.rows[id].enabled {
          InitializedAgrees(s, id, s.rows[id]);
        }
      case AdminUpdate(id, patch) =>
        if patch.Some? {
          RowSetAgrees(s, id, patch.value);
          InitializedAgrees(RowSet(s, id, patch.value), id, patch.value);
        }
      case _ =>
    }
  }

  /** In every reachable state a cached client of an existing user was built from that user's current columns. */
  lemma {:induction false} RunKeepsAgreement(s: State, ops: seq<Op>)
    requires Agrees(s)
    ensures Agrees(Run(s, ops))
    decreases |ops|
  {
    if ops != [] {
      RunKeepsAgreement(s, ops[..|ops| - 1]);
      ApplyKeepsAgreement(Run(s, ops[..|ops| - 1]), ops[|ops| - 1]);
    }
  }

  ghost predicate Init(s: State) {
    s.clients == map[] && s.configs == map[] && s.rows.Keys <= s.used
  }

  /**
    After any run from a fresh process, EnsureClientFromDB says true for an
    existing user exactly when that user's row is enabled, and then the client
    it leaves behind carries the row's credentials, bucket and endpoint.
   */
  lemma EnsureIsExact(s: State, ops: seq<Op>, id: string)
    requires Init(s) && id in Run(s, ops).rows
    ensures var t := Run(s, ops);
            && (EnsureResult(t, id) <==> t.rows[id].enabled)
            && (EnsureResult(t, id) ==>
                  && HasClient(Ensured(t, id), id)
                  && BuiltFrom(Ensured(t, id).clients[id], t.rows[id])
                  && Ensured(t, id).configs[id].bucket == t.rows[id].bucket
                  && SameStore(Ensured(t, id).configs[id], t.rows[id]))
            && (!EnsureResult(t, id) ==> !HasClient(Ensured(t, id), id))
  {
    RunKeepsAgreement(s, ops);
  }

  /** Deleting a user leaves the client behind: for a user that is gone the answer may still be true. */
  lemma DeletedUserKeepsClient(id: string, c: S3Config)
    requires c.enabled
    ensures var t := Run(State(map[], map[], map[], {}), [AdminCreate(id, c), Ensure(id), DeleteComplete(id)]);
            id !in t.rows && EnsureResult(t, id)
  {
    var s := State(map[], map[], map[], {});
    var a, b, d := AdminCreate(id, c), Ensure(id), DeleteComplete(id);
    assert [a, b, d][..2] == [a, b] && [a, b][..1] == [a] && [a][..0] == [];
    var s1 := Apply(s, a);
    var s2 := Apply(s1, b);
    assert Run(s, [a]) == s1;
    assert Run(s, [a, b]) == s2;
  }

  /**
    That is why ids must not be reused: after any run, giving the id of a deleted
    user to a new row keeps the agreement exactly when no client is left for that
    id or the new row asks for the very same store. In particular a recreated,
    disabled user would inherit the old client.
   */
  lemma ReusedIdAgreesIff(s: State, ops: seq<Op>, id: string, row: S3Config)
    requires Init(s) && id in Run(s, ops).used && id !in Run(s, ops).rows
    ensures var t := Run(s, ops);
            && Agrees(t)
            && (Agrees(t.(rows := t.rows[id := row])) <==> (HasClient(t, id) ==> SameStore(t.configs[id], row)))
  {
    RunKeepsAgreement(s, ops);
    var t := Run(s, ops);
    var t' := t.(rows := t.rows[id := row]);
    if HasClient(t, id) {
      assert id in t'.clients && id in t'.rows && t'.rows[id] == row;
    }
  }

  /** ConfigureS3 taken apart: two overlapping requests, a before b on the row and b before a on the client. */
  function Overlapped(s: State, id: string, a: S3Config, b: S3Config): State {
    Initialized(Initialized(RowSet(RowSet(s, id, a), id, b), id, Undelivered(b)), id, Undelivered(a))
  }

  /**
    The agreement needs each handler to run as one step. When two overlapping
    requests write the rows in one order and the clients in the other, row and
    client still agree exactly when the request whose client stays was for a
    disabled store or for the same store.
   */
  lemma OverlappingConfigureAgreesIff(s: State, id: string, a: S3Config, b: S3Config)
    requires Agrees(s) && id in s.rows
    ensures Agrees(Overlapped(s, id, a, b)) <==> (a.enabled ==> SameStore(a, b))
  {
    var r := RowSet(RowSet(s, id, a), id, b);
    RowSetAgrees(s, id, b);
    assert r == RowSet(s, id, b);
    var c := Initialized(r, id, Undelivered(b));
    InitializedAgrees(r, id, Undelivered(b));
    var t := Overlapped(s, id, a, b);
    if a.enabled && !SameStore(a, b) {
      assert id in t.clients && t.configs[id] == Undelivered(a) && t.rows[id] == b;
    } else {
      InitializedAgrees(c, id, Undelivered(a));
    }
  }

  // ---------------------------------------------------------------------
  // When a client is there at all
  // ---------------------------------------------------------------------

  /** The operations that look at, install or remove a user's client. */
  predicate UsesS3(op: Op) {
    op.Configure? || op.TestConnection? || op.DeleteConfig? || op.Ensure? || (op.AdminUpdate? && op.patch.Some?)
  }

  lemma {:induction false} UsedStays(s: State, ops: seq<Op>)
    ensures s.used <= Run(s, ops).used
    decreases |ops|
  {
    if ops != [] {
      UsedStays(s, ops[..|ops| - 1]);
    }
  }

  /** After an operation on an existing, enabled user, there is a client if the operation uses S3, else if there was one. */
  lemma ClientAfter(s: State, op: Op, id: string)
    requires id in s.used && id in Apply(s, op).rows && Apply(s, op).rows[id].enabled
    ensures if op.id == id && UsesS3(op) then HasClient(Apply(s, op), id)
            else id in s.rows && s.rows[id].enabled && (HasClient(Apply(s, op), id) <==> HasClient(s, id))
  {
  }

  /**
    Clients are made lazily: an enabled user has one exactly when something has
    used S3 for that user since the process started.
   */
  lemma {:induction false} ClientIffUsed(s: State, ops: seq<Op>, id: string)
    requires Init(s) && id in s.rows
    requires id in Run(s, ops).rows && Run(s, ops).rows[id].enabled
    ensures HasClient(Run(s, ops), id) <==> exists op <- ops :: op.id == id && UsesS3(op)
    decreases |ops|
  {
    if ops != [] {
      var n := |ops| - 1;
      UsedStays(s, ops[..n]);
      ClientAfter(Run(s, ops[..n]), ops[n], id);
      if ops[n].id == id && UsesS3(ops[n]) {
        assert ops[n] in ops;
      } else {
        ClientIffUsed(s, ops[..n], id);
        assert ops == ops[..n] + [ops[n]];
      }
    }
  }

  // ---------------------------------------------------------------------
  // The code
  // ---------------------------------------------------------------------

  /** S3Manager together with the users table; `hasDb` says whether SetDB has been called. */
  class Manager {
    var rows: map<string, S3Config>
    var clients: map<string, Client>
    var configs: map<string, S3Config>
    var hasDb: bool
    ghost var used: set<string>

    ghost function View(): State
      reads this
    {
      State(rows, clients, configs, used)
    }

    constructor (rows: map<string, S3Config>)
      ensures Init(View()) && Agrees(View()) && this.rows == rows && !hasDb
    {
      this.rows, this.clients, this.configs, this.hasDb, this.used := rows, map[], map[], false, rows.Keys;
    }

    method RemoveClient(id: string)
      modifies this`clients, this`configs
      ensures View() == Removed(old(View()), id)
      ensures clients == old(clients) - {id} && configs == old(configs) - {id}
      ensures Agrees(old(View())) ==> Agrees(View())
    {
      clients := clients - {id};
      configs := configs - {id};
    }

    /** Installing a client keeps the agreement when it is for the row as it is now. */
    method InitializeS3Client(id: string, c: S3Config)
      modifies this`clients, this`configs
      ensures View() == Initialized(old(View()), id, c)
      ensures c.enabled ==> id in clients && BuiltFrom(clients[id], c) && clients == old(clients)[id := clients[id]]
      ensures c.enabled ==> configs == old(configs)[id := c]
      ensures !c.enabled ==> clients == old(clients) - {id} && configs == old(configs) - {id}
      ensures AgreesBut(old(View()), id) && id in used && (c.enabled && id in rows ==> SameStore(c, rows[id])) ==>
                Agrees(View())
    {
      ghost var before := View();
      if !c.enabled {
        RemoveClient(id);
      } else {
        var client := Client(c.region, c.accessKey, c.secretKey, c.endpoint, c.pathStyle);
        clients := clients[id := client];
        configs := configs[id := c];
      }
      assert View() == Initialized(before, id, c);
      if AgreesBut(before, id) && id in used && (c.enabled && id in rows ==> SameStore(c, rows[id])) {
        InitializedAgrees(before, id, c);
      }
    }

    method GetClient(id: string) returns (client: Option<Client>, config: Option<S3Config>, ok: bool)
      ensures ok <==> HasClient(View(), id)
      ensures ok ==> client == Some(clients[id]) && config == Some(configs[id])
      ensures ok && Agrees(View()) && id in rows ==>
                BuiltFrom(client.value, rows[id]) && SameStore(config.value, rows[id])
    {
      client := if id in clients then Some(clients[id]) else None;
      config := if id in configs then Some(configs[id]) else None;
      ok := client.Some? && config.Some?;
    }

    /** `queryOk` is whether the SELECT succeeds; without a database handle there is no query. */
    method EnsureClientFromDB(id: string, queryOk: bool) returns (ok: bool)
      modifies this`clients, this`configs
      ensures View() == if hasDb && queryOk then Ensured(old(View()), id) else old(View())
      ensures ok <==> HasClient(View(), id)
      ensures Agrees(old(View())) ==> Agrees(View())
      ensures Agrees(old(View())) && id in rows ==>
                (ok <==> rows[id].enabled && (HasClient(old(View()), id) || (hasDb && queryOk)))
    {
      var _, _, found := GetClient(id);
      if found {
        return true;
      }
      if !hasDb || !queryOk || id !in rows || !rows[id].enabled {
        return false;
      }
      InitializeS3Client(id, rows[id]);
      return true;
    }

    /** ConfigureS3, after the payload has been validated; a failed UPDATE stops it. */
    method ConfigureS3(id: string, t: S3Config, sqlOk: bool) returns (ok: bool)
      requires id in used
      modifies this`rows, this`clients, this`configs
      ensures ok == sqlOk
      ensures View() == if ok then Apply(old(View()), Configure(id, t)) else old(View())
      ensures ok ==> rows == if id in old(rows) then old(rows)[id := t] else old(rows)
      ensures ok && t.enabled ==> id in clients && BuiltFrom(clients[id], t) && id in configs && SameStore(configs[id], t)
      ensures ok && !t.enabled ==> id !in clients && id !in configs
      ensures Agrees(old(View())) ==> Agrees(View())
    {
      ghost var before := View();
      if !sqlOk {
        return false;
      }
      if id in rows {
        rows := rows[id := t];
      }
      if t.enabled {
        InitializeS3Client(id, t.(mediaDelivery := ""));
      } else {
        RemoveClient(id);
      }
      Kept(before, Configure(id, t));
      return true;
    }

    /** TestS3Connection up to the client it needs; `queryOk` is whether the SELECT succeeds. */
    method TestS3Connection(id: string, queryOk: bool) returns (ok: bool)
      requires id in used
      modifies this`clients, this`configs
      ensures ok <==> queryOk && id in rows && rows[id].enabled
      ensures View() == if queryOk then Apply(old(View()), TestConnection(id)) else old(View())
      ensures ok ==> id in clients && BuiltFrom(clients[id], rows[id]) && id in configs && SameStore(configs[id], rows[id])
      ensures Agrees(old(View())) ==> Agrees(View())
    {
      ghost var before := View();
      if !queryOk || id !in rows || !rows[id].enabled {
        return false;
      }
      InitializeS3Client(id, rows[id].(mediaDelivery := ""));
      Kept(before, TestConnection(id));
      return true;
    }

    method DeleteS3Config(id: string, sqlOk: bool) returns (ok: bool)
      requires id in used
      modifies this`rows, this`clients, this`configs
      ensures ok == sqlOk
      ensures View() == if ok then Apply(old(View()), DeleteConfig(id)) else old(View())
      ensures ok ==> id !in clients && id !in configs && rows - {id} == old(rows) - {id}
      ensures ok && id in old(rows) ==>
                && id in rows && !rows[id].enabled && rows[id].endpoint == rows[id].region == rows[id].bucket == ""
                && rows[id].accessKey == rows[id].secretKey == rows[id].publicURL == "" && rows[id].pathStyle
                && rows[id].mediaDelivery == "base64" && rows[id].retentionDays == 30
      ensures Agrees(old(View())) ==> Agrees(View())
    {
      ghost var before := View();
      if !sqlOk {
        return false;
      }
      if id in rows {
        rows := rows[id := CLEARED];
      }
      RemoveClient(id);
      Kept(before, DeleteConfig(id));
      return true;
    }

    /**
      Service.Update for the S3 part of a patch, with the hook of
      users_adapter.go. `accepted` is false when the patch is refused or a
      statement fails; the hook then does not run.
     */
    method UpdateUser(id: string, patch: Option<S3Config>, accepted: bool) returns (ok: bool)
      requires id in used
      modifies this`rows, this`clients, this`configs
      ensures ok <==> id in old(rows) && accepted
      ensures View() == if ok then Apply(old(View()), AdminUpdate(id, patch)) else old(View())
      ensures ok && patch.None? ==> View() == old(View())
      ensures ok && patch.Some? ==> rows == old(rows)[id := patch.value]
      ensures ok && patch.Some? && patch.value.enabled ==>
                id in clients && BuiltFrom(clients[id], patch.value) && id in configs && configs[id] == patch.value
      ensures ok && patch.Some? && !patch.value.enabled ==> id !in clients && id !in configs
      ensures Agrees(old(View())) ==> Agrees(View())
    {
      ghost var before := View();
      if id !in rows || !accepted {
        return false;
      }
      if patch.Some? {
        rows := rows[id := patch.value];
        if patch.value.enabled {
          InitializeS3Client(id, patch.value);
        } else {
          RemoveClient(id);
        }
      }
      Kept(before, AdminUpdate(id, patch));
      return true;
    }
  }

  lemma Kept(s: State, op: Op)
    ensures Agrees(s) ==> Agrees(Apply(s, op))
  {
    if Agrees(s) {
      ApplyKeepsAgreement(s, op);
    }
  }
}
