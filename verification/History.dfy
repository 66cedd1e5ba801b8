/**
  The bounded message history of cmd/api/db.go. The SQL of a trim is modelled by
  rank: a row of the chat is selected when at least `limit` rows of that chat
  have a later timestamp. The lemmas show that free interleavings of saves and
  trims keep each chat a sliding window over its inserts.
 */
module History {

  datatype Chat = Chat(user: string, jid: string)

  /** A message_history row, without the columns nothing here depends on. */
  datatype Row = Row(user: string, jid: string, messageId: string, timestamp: int)

  /** A row of whatsmeow_message_secrets. */
  datatype Secret = Secret(owner: string, messageId: string)

  predicate InChat(r: Row, ch: Chat) {
    r.user == ch.user && r.jid == ch.jid
  }

  // ---------------------------------------------------------------------
  // The two statements of a trim
  // ---------------------------------------------------------------------

  /** The rows of one chat, in table order. */
  function ChatRows(rows: seq<Row>, ch: Chat): seq<Row> {
    if rows == [] then []
    else
      var n := |rows| - 1;
      if InChat(rows[n], ch) then ChatRows(rows[..n], ch) + [rows[n]] else ChatRows(rows[..n], ch)
  }

  /** How many of these rows are later than t. */
  function Later(rows: seq<Row>, t: int): nat {
    if rows == [] then 0
    else
      var n := |rows| - 1;
      Later(rows[..n], t) + (if rows[n].timestamp > t then 1 else 0)
  }

  /** Selected by ... WHERE user_id AND chat_jid ORDER BY timestamp DESC OFFSET limit (distinct timestamps). */
  predicate Selected(rows: seq<Row>, ch: Chat, limit: nat, r: Row) {
    InChat(r, ch) && Later(ChatRows(rows, ch), r.timestamp) >= limit
  }

  function Unselected(table: seq<Row>, ch: Chat, limit: nat, rows: seq<Row>): seq<Row> {
    if rows == [] then []
    else
      var n := |rows| - 1;
      if Selected(table, ch, limit, rows[n]) then Unselected(table, ch, limit, rows[..n])
      else Unselected(table, ch, limit, rows[..n]) + [rows[n]]
  }

  /** DELETE FROM message_history. */
  function Trimmed(rows: seq<Row>, ch: Chat, limit: nat): seq<Row> {
    Unselected(rows, ch, limit, rows)
  }

  /** DELETE FROM whatsmeow_message_secrets: by message id alone, whoever owns the secret. */
  function SecretsTrimmed(secrets: set<Secret>, rows: seq<Row>, ch: Chat, limit: nat): set<Secret> {
    set s | s in secrets && !exists r <- rows :: Selected(rows, ch, limit, r) && r.messageId == s.messageId
  }

  // ---------------------------------------------------------------------
  // A trim keeps the newest rows of its chat and nothing else changes
  // ---------------------------------------------------------------------

  predicate Increasing(rows: seq<Row>) {
    forall i, j :: 0 <= i < j < |rows| ==> rows[i].timestamp < rows[j].timestamp
  }

  function Newest(rows: seq<Row>, limit: nat): seq<Row> {
    if |rows| <= limit then rows else rows[|rows| - limit..]
  }

  lemma {:induction false} ChatRowsMembers(rows: seq<Row>, ch: Chat)
    ensures forall r :: r in ChatRows(rows, ch) <==> r in rows && InChat(r, ch)
    decreases |rows|
  {
    if rows != [] {
      var n := |rows| - 1;
      ChatRowsMembers(rows[..n], ch);
      assert rows == rows[..n] + [rows[n]];
    }
  }

  /** In an increasing chat the rank of a row is its distance from the end. */
  lemma {:induction false} RankIsDistance(rows: seq<Row>, k: nat)
    requires Increasing(rows) && k < |rows|
    ensures Later(rows, rows[k].timestamp) == |rows| - 1 - k
    decreases |rows|
  {
    var n := |rows| - 1;
    if k < n {
      RankIsDistance(rows[..n], k);
    } else {
      NoneLater(rows[..n], rows[k].timestamp);
    }
  }

  lemma {:induction false} NoneLater(rows: seq<Row>, t: int)
    requires forall r <- rows :: r.timestamp <= t
    ensures Later(rows, t) == 0
    decreases |rows|
  {
    if rows != [] {
      NoneLater(rows[..|rows| - 1], t);
    }
  }

  lemma {:induction false} OtherChatsUntouched(table: seq<Row>, ch: Chat, limit: nat, rows: seq<Row>, other: Chat)
    requires other != ch
    ensures ChatRows(Unselected(table, ch, limit, rows), other) == ChatRows(rows, other)
    decreases |rows|
  {
    if rows != [] {
      var n := |rows| - 1;
      OtherChatsUntouched(table, ch, limit, rows[..n], other);
      ChatRowsSnoc(Unselected(table, ch, limit, rows[..n]), rows[n], other);
    }
  }

  lemma ChatRowsSnoc(rows: seq<Row>, r: Row, ch: Chat)
    ensures ChatRows(rows + [r], ch) == if InChat(r, ch) then ChatRows(rows, ch) + [r] else ChatRows(rows, ch)
  {
    assert (rows + [r])[..|rows|] == rows;
  }

  /** some without its first `cut` elements. */
  function From(some: seq<Row>, cut: nat): seq<Row> {
    if |some| <= cut then [] else some[cut..]
  }

  lemma FromSnoc(some: seq<Row>, r: Row, cut: nat)
    ensures From(some + [r], cut) == if |some| < cut then [] else From(some, cut) + [r]
  {
  }

  /** Within the chat, the rows kept are those at most `limit` from the end. */
  lemma {:induction false} KeptWithinChat(table: seq<Row>, ch: Chat, limit: nat, rows: seq<Row>, cut: nat)
    requires Increasing(ChatRows(table, ch))
    requires ChatRows(rows, ch) <= ChatRows(table, ch)
    requires cut == if |ChatRows(table, ch)| <= limit then 0 else |ChatRows(table, ch)| - limit
    ensures ChatRows(Unselected(table, ch, limit, rows), ch) == From(ChatRows(rows, ch), cut)
    decreases |rows|
  {
    if rows != [] {
      var n := |rows| - 1;
      var r := rows[n];
      KeptWithinChat(table, ch, limit, rows[..n], cut);
      ChatRowsSnoc(Unselected(table, ch, limit, rows[..n]), r, ch);
      if InChat(r, ch) {
        var all, before := ChatRows(table, ch), ChatRows(rows[..n], ch);
        FromSnoc(before, r, cut);
        assert all[|before|] == r;
        RankIsDistance(all, |before|);
      }
    }
  }

  /** The heart of it: a trim leaves exactly the newest `limit` rows of its chat and touches no other chat. */
  lemma TrimKeepsNewest(rows: seq<Row>, ch: Chat, limit: nat, other: Chat)
    requires Increasing(ChatRows(rows, ch))
    ensures ChatRows(Trimmed(rows, ch, limit), other) ==
            if other == ch then Newest(ChatRows(rows, ch), limit) else ChatRows(rows, other)
  {
    if other == ch {
      var all := ChatRows(rows, ch);
      KeptWithinChat(rows, ch, limit, rows, if |all| <= limit then 0 else |all| - limit);
    } else {
      OtherChatsUntouched(rows, ch, limit, rows, other);
    }
  }

  // ---------------------------------------------------------------------
  // Interleaved saves and trims
  // ---------------------------------------------------------------------

  /**
    The table, every successful insert ever made (for the specification), the
    trims that have not started or are between their two statements, and the
    trims that gave up on an error.
   */
  datatype State = State(
    rows: seq<Row>, inserts: seq<Row>, secrets: set<Secret>,
    waiting: multiset<Chat>, halfway: multiset<Chat>, lost: multiset<Chat>)

  predicate Conflicts(rows: seq<Row>, r: Row) {
    exists q <- rows :: q.user == r.user && q.messageId == r.messageId
  }

  datatype Event =
    | Save(row: Row)
    | TrimSecrets(chat: Chat)
    | TrimHistory(chat: Chat)
    | TrimFails(chat: Chat)
    | TrimFailsHalfway(chat: Chat)

  /** A save of r is newer than everything its chat ever held. */
  predicate NewerInChat(inserts: seq<Row>, r: Row) {
    forall q <- inserts :: InChat(q, Chat(r.user, r.jid)) ==> q.timestamp < r.timestamp
  }

  /** Save runs as one INSERT; its trim follows later as two separate statements. */
  function Do(s: State, limit: nat, e: Event): State {
    match e
    case Save(r) =>
      if Conflicts(s.rows, r) || !NewerInChat(s.inserts, r) then s
      else s.(rows := s.rows + [r], inserts := s.inserts + [r], waiting := s.waiting + multiset{Chat(r.user, r.jid)})
    case TrimSecrets(ch) =>
      if ch !in s.waiting then s
      else s.(secrets := SecretsTrimmed(s.secrets, s.rows, ch, limit),
              waiting := s.waiting - multiset{ch}, halfway := s.halfway + multiset{ch})
    case TrimHistory(ch) =>
      if ch !in s.halfway then s
      else s.(rows := Trimmed(s.rows, ch, limit), halfway := s.halfway - multiset{ch})
    case TrimFails(ch) =>
      if ch !in s.waiting then s
      else s.(waiting := s.waiting - multiset{ch}, lost := s.lost + multiset{ch})
    case TrimFailsHalfway(ch) =>
      if ch !in s.halfway then s
      else s.(halfway := s.halfway - multiset{ch}, lost := s.lost + multiset{ch})
  }

  function Run(s: State, limit: nat, es: seq<Event>): State {
    if es == [] then s else Do(Run(s, limit, es[..|es| - 1]), limit, es[|es| - 1])
  }

  ghost predicate Suffix(a: seq<Row>, b: seq<Row>) {
    |a| <= |b| && a == b[|b| - |a|..]
  }

  function Min(a: nat, b: nat): nat {
    if a <= b then a else b
  }

  /** One chat is a window: a suffix of its inserts, at least the newest `limit`, over by at most the trims still owed. */
  ghost predicate Window(s: State, limit: nat, ch: Chat) {
    var have, all := ChatRows(s.rows, ch), ChatRows(s.inserts, ch);
    && Suffix(have, all)
    && Min(limit, |all|) <= |have|
    && |have| <= limit + s.waiting[ch] + s.halfway[ch] + s.lost[ch]
  }

  ghost predicate UniqueIds(rows: seq<Row>) {
    forall i, j :: 0 <= i < j < |rows| && rows[i].user == rows[j].user ==> rows[i].messageId != rows[j].messageId
  }

  ghost predicate Inv(s: State, limit: nat) {
    && UniqueIds(s.rows)
    && (forall ch: Chat :: ChatOrdered(s.inserts, ch))
    && forall ch: Chat :: Window(s, limit, ch)
  }

  ghost predicate ChatOrdered(inserts: seq<Row>, ch: Chat) {
    Increasing(ChatRows(inserts, ch))
  }

  lemma SaveKeepsOrder(inserts: seq<Row>, r: Row, ch: Chat)
    requires ChatOrdered(inserts, ch) && NewerInChat(inserts, r)
    ensures ChatOrdered(inserts + [r], ch)
  {
    ChatRowsSnoc(inserts, r, ch);
    if InChat(r, ch) {
      assert ch == Chat(r.user, r.jid);
      ChatRowsMembers(inserts, ch);
    }
  }

  lemma NewestOfSuffix(have: seq<Row>, all: seq<Row>, limit: nat)
    requires Suffix(have, all) && Min(limit, |all|) <= |have|
    ensures Newest(have, limit) == Newest(all, limit)
  {
  }

  lemma SuffixIncreasing(a: seq<Row>, b: seq<Row>)
    requires Suffix(a, b) && Increasing(b)
    ensures Increasing(a)
  {
    assert forall i :: 0 <= i < |a| ==> a[i] == b[|b| - |a| + i];
  }

  lemma {:induction false} UnselectedIsSubsequence(table: seq<Row>, ch: Chat, limit: nat, rows: seq<Row>)
    requires UniqueIds(rows)
    ensures UniqueIds(Unselected(table, ch, limit, rows))
    ensures forall r :: r in Unselected(table, ch, limit, rows) <==> r in rows && !Selected(table, ch, limit, r)
    decreases |rows|
  {
    if rows != [] {
      var n := |rows| - 1;
      UnselectedIsSubsequence(table, ch, limit, rows[..n]);
      assert rows == rows[..n] + [rows[n]];
      assert forall q <- rows[..n] :: q.user == rows[n].user ==> q.messageId != rows[n].messageId;
    }
  }

  lemma SuffixSnoc(have: seq<Row>, all: seq<Row>, r: Row)
    requires Suffix(have, all)
    ensures Suffix(have + [r], all + [r])
  {
  }

  lemma SaveKeepsWindow(s: State, limit: nat, r: Row, ch: Chat)
    requires Window(s, limit, ch) && limit >= 1
    ensures Window(Do(s, limit, Save(r)), limit, ch)
  {
    ChatRowsSnoc(s.rows, r, ch);
    ChatRowsSnoc(s.inserts, r, ch);
    if InChat(r, ch) {
      assert ch == Chat(r.user, r.jid);
      SuffixSnoc(ChatRows(s.rows, ch), ChatRows(s.inserts, ch), r);
    }
  }

  /** What a trim leaves of its own chat is still a window, and one trim fewer is owed. */
  lemma NewestIsWindow(have: seq<Row>, all: seq<Row>, limit: nat)
    requires Suffix(have, all) && Min(limit, |all|) <= |have|
    ensures Suffix(Newest(have, limit), all) && Min(limit, |all|) <= |Newest(have, limit)| <= limit
  {
  }

  lemma TrimKeepsWindow(s: State, limit: nat, t: Chat, ch: Chat)
    requires Window(s, limit, ch) && Window(s, limit, t) && ChatOrdered(s.inserts, t)
    ensures Window(Do(s, limit, TrimHistory(t)), limit, ch)
  {
    if t in s.halfway {
      var have, all := ChatRows(s.rows, t), ChatRows(s.inserts, t);
      SuffixIncreasing(have, all);
      TrimKeepsNewest(s.rows, t, limit, ch);
      if ch == t {
        NewestIsWindow(have, all, limit);
      }
    }
  }

  lemma DoKeepsInv(s: State, limit: nat, e: Event)
    requires Inv(s, limit) && limit >= 1
    ensures Inv(Do(s, limit, e), limit)
  {
    forall ch: Chat
      ensures Window(Do(s, limit, e), limit, ch)
    {
      assert Window(s, limit, ch);
      match e
      case Save(r) => SaveKeepsWindow(s, limit, r, ch);
      case TrimHistory(t) =>
        assert Window(s, limit, t) && ChatOrdered(s.inserts, t);
        TrimKeepsWindow(s, limit, t, ch);
      case _ =>
    }
    forall ch: Chat
      ensures ChatOrdered(Do(s, limit, e).inserts, ch)
    {
      assert ChatOrdered(s.inserts, ch);
      if Do(s, limit, e).inserts != s.inserts {
        SaveKeepsOrder(s.inserts, e.row, ch);
      }
    }
    if e.TrimHistory? {
      UnselectedIsSubsequence(s.rows, e.chat, limit, s.rows);
    }
  }

  lemma {:induction false} RunKeepsInv(s: State, limit: nat, es: seq<Event>)
    requires Inv(s, limit) && limit >= 1
    ensures Inv(Run(s, limit, es), limit)
    decreases |es|
  {
    if es != [] {
      RunKeepsInv(s, limit, es[..|es| - 1]);
      DoKeepsInv(Run(s, limit, es[..|es| - 1]), limit, es[|es| - 1]);
    }
  }

  ghost predicate Init(s: State) {
    s.rows == [] && s.inserts == [] && s.waiting == s.halfway == s.lost == multiset{}
  }

  /**
    Under any interleaving of saves and trims at a fixed limit, each chat holds a
    suffix of its successful inserts that includes the newest min(limit, k) of
    its k inserts, and exceeds the limit by no more than the trims still owed or
    given up.
   */
  lemma HistoryIsWindow(s: State, limit: nat, es: seq<Event>)
    requires Init(s) && limit >= 1
    ensures Inv(Run(s, limit, es), limit)
  {
    forall ch: Chat
      ensures Window(s, limit, ch) && ChatOrdered(s.inserts, ch)
    {
      assert ChatRows(s.rows, ch) == [];
    }
    RunKeepsInv(s, limit, es);
  }

  /** Once every trim has run, a chat holds exactly its newest min(limit, k) inserts. */
  lemma QuiescentChatIsExact(s: State, limit: nat, es: seq<Event>, ch: Chat)
    requires Init(s) && limit >= 1
    requires var t := Run(s, limit, es); t.waiting[ch] == t.halfway[ch] == t.lost[ch] == 0
    ensures var t := Run(s, limit, es);
            ChatRows(t.rows, ch) == Newest(ChatRows(t.inserts, ch), limit)
  {
    HistoryIsWindow(s, limit, es);
    var t := Run(s, limit, es);
    assert Window(t, limit, ch);
    ExactWindow(ChatRows(t.rows, ch), ChatRows(t.inserts, ch), limit);
  }

  lemma ExactWindow(have: seq<Row>, all: seq<Row>, limit: nat)
    requires Suffix(have, all) && Min(limit, |all|) <= |have| <= limit
    ensures have == Newest(all, limit)
  {
  }

  /**
    A message that is new to its user and newer than its chat is inserted, and its
    trim, when nothing comes between, ends with the chat at its newest rows, the
    other chats as they were, the secrets of the rows pushed out gone, and no
    further trim owed.
   */
  lemma SaveThenTrim(s: State, limit: nat, r: Row, ch: Chat, other: Chat)
    requires Inv(s, limit) && limit >= 1 && ch == Chat(r.user, r.jid)
    requires forall q <- s.rows :: q.user != r.user || q.messageId != r.messageId
    requires forall q <- s.inserts :: q.user == r.user && q.jid == r.jid ==> q.timestamp < r.timestamp
    ensures var t := Do(Do(Do(s, limit, Save(r)), limit, TrimSecrets(ch)), limit, TrimHistory(ch));
            && t.inserts == s.inserts + [r]
            && ChatRows(t.rows, other) ==
               (if other == ch then Newest(ChatRows(s.inserts, ch) + [r], limit) else ChatRows(s.rows, other))
            && t.secrets == SecretsTrimmed(s.secrets, s.rows + [r], ch, limit)
            && t.waiting == s.waiting && t.halfway == s.halfway && t.lost == s.lost
  {
    var s1 := Do(s, limit, Save(r));
    assert s1 == s.(rows := s.rows + [r], inserts := s.inserts + [r], waiting := s.waiting + multiset{ch});
    DoKeepsInv(s, limit, Save(r));
    var s2 := Do(s1, limit, TrimSecrets(ch));
    DoKeepsInv(s1, limit, TrimSecrets(ch));
    assert s2.waiting == s.waiting && s2.halfway == s.halfway + multiset{ch};
    TrimRecovers(s2, limit, ch);
    assert s2.halfway - multiset{ch} == s.halfway;
    ChatRowsSnoc(s.inserts, r, ch);
    if other != ch {
      OtherChatsUntouched(s2.rows, ch, limit, s2.rows, other);
      ChatRowsSnoc(s.rows, r, other);
    }
  }

  /** A trim that completes brings its chat back to the limit even if earlier trims failed. */
  lemma TrimRecovers(s: State, limit: nat, ch: Chat)
    requires Inv(s, limit) && ch in s.halfway
    ensures ChatRows(Do(s, limit, TrimHistory(ch)).rows, ch) == Newest(ChatRows(s.inserts, ch), limit)
  {
    assert Window(s, limit, ch) && ChatOrdered(s.inserts, ch);
    SuffixIncreasing(ChatRows(s.rows, ch), ChatRows(s.inserts, ch));
    NewestOfSuffix(ChatRows(s.rows, ch), ChatRows(s.inserts, ch), limit);
    TrimKeepsNewest(s.rows, ch, limit, ch);
  }

  // ---------------------------------------------------------------------
  // Secrets
  // ---------------------------------------------------------------------

  /**
    A trim whose two statements run back to back removes exactly the secrets of
    the rows it deletes.
   */
  lemma SecretsMatchDeletedRows(rows: seq<Row>, secrets: set<Secret>, ch: Chat, limit: nat, s: Secret)
    requires UniqueIds(rows) && s in secrets
    ensures s !in SecretsTrimmed(secrets, rows, ch, limit) <==>
            exists r <- rows :: r !in Trimmed(rows, ch, limit) && r.messageId == s.messageId
  {
    UnselectedIsSubsequence(rows, ch, limit, rows);
  }

  /** Because (user_id, message_id) is unique, the user's surviving rows keep their secrets. */
  lemma SurvivorsKeepSecrets(rows: seq<Row>, secrets: set<Secret>, ch: Chat, limit: nat, kept: Row, s: Secret)
    requires UniqueIds(rows) && s in secrets
    requires kept in Trimmed(rows, ch, limit) && kept.user == ch.user && s.messageId == kept.messageId
    ensures s in SecretsTrimmed(secrets, rows, ch, limit)
  {
    UnselectedIsSubsequence(rows, ch, limit, rows);
  }

  /**
    Secrets are deleted by message id alone, so a surviving row of another user
    loses its secret exactly when a row this trim deletes carries the same id.
   */
  lemma OtherUsersSecret(rows: seq<Row>, secrets: set<Secret>, ch: Chat, limit: nat, kept: Row, s: Secret)
    requires UniqueIds(rows) && s in secrets
    requires kept in Trimmed(rows, ch, limit) && kept.user != ch.user && s.messageId == kept.messageId
    ensures s in SecretsTrimmed(secrets, rows, ch, limit) <==>
            !exists r <- rows :: InChat(r, ch) && r !in Trimmed(rows, ch, limit) && r.messageId == kept.messageId
  {
    UnselectedIsSubsequence(rows, ch, limit, rows);
  }

  lemma PairInChat(older: Row, newer: Row, ch: Chat)
    requires InChat(older, ch) && InChat(newer, ch)
    ensures ChatRows([older] + [newer], ch) == [older] + [newer]
  {
    ChatRowsSnoc([], older, ch);
    assert [] + [older] == [older];
    ChatRowsSnoc([older], newer, ch);
  }

  lemma OneLater(older: Row, newer: Row)
    requires older.timestamp < newer.timestamp
    ensures Later([older] + [newer], older.timestamp) == 1
  {
    LaterGrows([older], [newer], older.timestamp);
    assert [older][..0] == [] && [newer][..0] == [];
  }

  lemma OlderIsSelected(mine: Row, newer: Row, theirs: Row, rows: seq<Row>, ch: Chat)
    requires newer.user == mine.user != theirs.user && newer.jid == mine.jid && mine.timestamp < newer.timestamp
    requires rows == [mine] + [newer] + [theirs] && ch == Chat(mine.user, mine.jid)
    ensures Selected(rows, ch, 1, mine)
  {
    ChatRowsSnoc([mine] + [newer], theirs, ch);
    PairInChat(mine, newer, ch);
    OneLater(mine, newer);
  }

  /**
    In any table: whenever a trim deletes a row whose message id a row of another
    user shares, that other row stays and its secret goes.
   */
  lemma SharedIdLosesSecret(rows: seq<Row>, secrets: set<Secret>, ch: Chat, limit: nat, mine: Row, theirs: Row, s: Secret)
    requires UniqueIds(rows) && mine in rows && Selected(rows, ch, limit, mine)
    requires theirs in rows && theirs.user != ch.user && theirs.messageId == mine.messageId == s.messageId
    ensures mine !in Trimmed(rows, ch, limit) && theirs in Trimmed(rows, ch, limit)
    ensures s !in SecretsTrimmed(secrets, rows, ch, limit)
  {
    UnselectedIsSubsequence(rows, ch, limit, rows);
  }

  /** Two users in one group share message ids: the smallest table in which that happens. */
  lemma SharedIdExample(mine: Row, newer: Row, theirs: Row, rows: seq<Row>, ch: Chat, s: Secret)
    requires newer.user == mine.user != theirs.user && newer.jid == mine.jid && mine.timestamp < newer.timestamp
    requires newer.messageId != mine.messageId == theirs.messageId == s.messageId
    requires rows == [mine] + [newer] + [theirs] && ch == Chat(mine.user, mine.jid)
    ensures UniqueIds(rows)
    ensures theirs in Trimmed(rows, ch, 1) && s !in SecretsTrimmed({s}, rows, ch, 1)
  {
    OlderIsSelected(mine, newer, theirs, rows, ch);
    assert rows[0] == mine && rows[2] == theirs;
    UnselectedIsSubsequence(rows, ch, 1, rows);
  }

  // ---------------------------------------------------------------------
  // Secrets when other statements run between the two of a trim
  // ---------------------------------------------------------------------

  lemma {:induction false} LaterGrows(rows: seq<Row>, more: seq<Row>, t: int)
    ensures Later(rows + more, t) == Later(rows, t) + Later(more, t)
    decreases |more|
  {
    if more == [] {
      assert rows + more == rows;
    } else {
      var n := |more| - 1;
      assert (rows + more)[..|rows + more| - 1] == rows + more[..n];
      LaterGrows(rows, more[..n], t);
    }
  }

  /** The rows of a suffix count among those of the whole. */
  lemma LaterInSuffix(a: seq<Row>, b: seq<Row>, t: int)
    requires Suffix(a, b)
    ensures Later(a, t) <= Later(b, t)
  {
    assert b == b[..|b| - |a|] + a;
    LaterGrows(b[..|b| - |a|], a, t);
  }

  lemma OvertakenStep(s: State, limit: nat, e: Event, ch: Chat, t: int)
    ensures Later(ChatRows(s.inserts, ch), t) <= Later(ChatRows(Do(s, limit, e).inserts, ch), t)
  {
    if e.Save? {
      ChatRowsSnoc(s.inserts, e.row, ch);
      LaterGrows(ChatRows(s.inserts, ch), [e.row], t);
    }
  }

  /** Inserts are never forgotten, so a row of a chat is only ever overtaken by more. */
  lemma {:induction false} OvertakenStays(s: State, limit: nat, es: seq<Event>, ch: Chat, t: int)
    ensures Later(ChatRows(s.inserts, ch), t) <= Later(ChatRows(Run(s, limit, es).inserts, ch), t)
    decreases |es|
  {
    if es != [] {
      var n := |es| - 1;
      OvertakenStays(s, limit, es[..n], ch, t);
      OvertakenStep(Run(s, limit, es[..n]), limit, es[n], ch, t);
    }
  }

  lemma NewestAreRecent(all: seq<Row>, limit: nat, r: Row)
    requires Increasing(all) && r in Newest(all, limit)
    ensures Later(all, r.timestamp) < limit
  {
    var cut := if |all| <= limit then 0 else |all| - limit;
    assert Newest(all, limit) == all[cut..];
    var k :| 0 <= k < |all| - cut && all[cut..][k] == r;
    assert all[cut + k] == r;
    RankIsDistance(all, cut + k);
  }

  /** A row that `limit` inserts have overtaken does not outlive a completed trim. */
  lemma OvertakenGoes(t: State, limit: nat, ch: Chat, r: Row)
    requires Inv(t, limit) && ch in t.halfway && InChat(r, ch)
    requires Later(ChatRows(t.inserts, ch), r.timestamp) >= limit
    ensures r !in Do(t, limit, TrimHistory(ch)).rows
  {
    var after := Do(t, limit, TrimHistory(ch)).rows;
    if r in after {
      var all := ChatRows(t.inserts, ch);
      assert ChatOrdered(t.inserts, ch);
      TrimRecovers(t, limit, ch);
      ChatRowsMembers(after, ch);
      NewestAreRecent(all, limit, r);
    }
  }

  /** The first statement ran in s, then anything at all, then the second: the state after that. */
  function TrimAround(s: State, limit: nat, ch: Chat, es: seq<Event>): State {
    Do(Run(Do(s, limit, TrimSecrets(ch)), limit, es), limit, TrimHistory(ch))
  }

  /**
    The rows whose secrets the first statement of a trim takes are gone when its
    second statement has run, whatever saves and trims run in between.
   */
  lemma TakenRowsGo(s: State, limit: nat, ch: Chat, es: seq<Event>, r: Row)
    requires Inv(s, limit) && limit >= 1
    requires ch in Run(Do(s, limit, TrimSecrets(ch)), limit, es).halfway
    requires Selected(s.rows, ch, limit, r)
    ensures r !in TrimAround(s, limit, ch, es).rows
  {
    var s1 := Do(s, limit, TrimSecrets(ch));
    var t := Run(s1, limit, es);
    assert Window(s, limit, ch);
    LaterInSuffix(ChatRows(s.rows, ch), ChatRows(s.inserts, ch), r.timestamp);
    OvertakenStays(s1, limit, es, ch, r.timestamp);
    DoKeepsInv(s, limit, TrimSecrets(ch));
    RunKeepsInv(s1, limit, es);
    OvertakenGoes(t, limit, ch, r);
  }

  /**
    So under every interleaving a row that a trim as a whole leaves in place, of
    the user it trims for, kept its secret through that trim's first statement.
   */
  lemma InterleavedSurvivorsKeepSecrets(s: State, limit: nat, ch: Chat, es: seq<Event>, kept: Row, x: Secret)
    requires Inv(s, limit) && limit >= 1
    requires ch in Run(Do(s, limit, TrimSecrets(ch)), limit, es).halfway
    requires kept in s.rows && kept in TrimAround(s, limit, ch, es).rows && kept.user == ch.user
    requires x in s.secrets && x.messageId == kept.messageId
    ensures x in Do(s, limit, TrimSecrets(ch)).secrets
  {
    if Selected(s.rows, ch, limit, kept) {
      TakenRowsGo(s, limit, ch, es, kept);
    } else {
      UnselectedIsSubsequence(s.rows, ch, limit, s.rows);
      SurvivorsKeepSecrets(s.rows, s.secrets, ch, limit, kept, x);
    }
  }

  lemma {:induction false} InsertsGrow(s: State, limit: nat, es: seq<Event>)
    ensures s.inserts <= Run(s, limit, es).inserts
    decreases |es|
  {
    if es != [] {
      InsertsGrow(s, limit, es[..|es| - 1]);
    }
  }

  lemma RecentAreNewest(all: seq<Row>, limit: nat, r: Row)
    requires Increasing(all) && r in all && Later(all, r.timestamp) < limit
    ensures r in Newest(all, limit)
  {
    var k :| 0 <= k < |all| && all[k] == r;
    RankIsDistance(all, k);
    if |all| > limit {
      assert all[|all| - limit..][k - (|all| - limit)] == r;
    }
  }

  /** A row ever inserted in the chat is gone after a completed trim exactly when `limit` inserts have overtaken it. */
  lemma GoneIffOvertaken(t: State, limit: nat, ch: Chat, r: Row)
    requires Inv(t, limit) && ch in t.halfway && InChat(r, ch) && r in t.inserts
    ensures r !in Do(t, limit, TrimHistory(ch)).rows <==> limit <= Later(ChatRows(t.inserts, ch), r.timestamp)
  {
    var all := ChatRows(t.inserts, ch);
    if limit <= Later(all, r.timestamp) {
      OvertakenGoes(t, limit, ch, r);
    } else {
      assert ChatOrdered(t.inserts, ch);
      ChatRowsMembers(t.inserts, ch);
      RecentAreNewest(all, limit, r);
      TrimRecovers(t, limit, ch);
      ChatRowsMembers(Do(t, limit, TrimHistory(ch)).rows, ch);
    }
  }

  /** A row of the chat is in the log of inserts, and stays there. */
  lemma RowWasInserted(s: State, limit: nat, es: seq<Event>, ch: Chat, r: Row)
    requires Window(s, limit, ch) && r in s.rows && InChat(r, ch)
    ensures r in Run(s, limit, es).inserts
  {
    ChatRowsMembers(s.rows, ch);
    ChatRowsMembers(s.inserts, ch);
    InsertsGrow(s, limit, es);
    var have, all := ChatRows(s.rows, ch), ChatRows(s.inserts, ch);
    assert have == all[|all| - |have|..] && r in have;
    assert r in all;
  }

  /** The first statement of a trim leaves a row's secret exactly when it does not select that row. */
  lemma SecretStaysIff(s: State, limit: nat, ch: Chat, r: Row, x: Secret)
    requires Inv(s, limit) && ch in s.waiting && r in s.rows && InChat(r, ch)
    requires x in s.secrets && x.messageId == r.messageId
    ensures x in Do(s, limit, TrimSecrets(ch)).secrets <==> Later(ChatRows(s.rows, ch), r.timestamp) < limit
  {
    if Later(ChatRows(s.rows, ch), r.timestamp) < limit {
      UnselectedIsSubsequence(s.rows, ch, limit, s.rows);
      SurvivorsKeepSecrets(s.rows, s.secrets, ch, limit, r, x);
    } else {
      assert Selected(s.rows, ch, limit, r);
    }
  }

  /**
    The other half of exactness, for every interleaving: a trim deletes a row and
    yet its first statement left that row's secret, exactly when the row was
    within the limit at the first statement and the inserts up to the second
    push it out.
   */
  lemma SecretLeftBehindIff(s: State, limit: nat, ch: Chat, es: seq<Event>, r: Row, x: Secret)
    requires Inv(s, limit) && limit >= 1 && ch in s.waiting
    requires ch in Run(Do(s, limit, TrimSecrets(ch)), limit, es).halfway
    requires r in s.rows && InChat(r, ch) && x in s.secrets && x.messageId == r.messageId
    ensures var t := Run(Do(s, limit, TrimSecrets(ch)), limit, es);
            x in Do(s, limit, TrimSecrets(ch)).secrets && r !in TrimAround(s, limit, ch, es).rows <==>
            Later(ChatRows(s.rows, ch), r.timestamp) < limit <= Later(ChatRows(t.inserts, ch), r.timestamp)
  {
    var s1 := Do(s, limit, TrimSecrets(ch));
    SecretStaysIff(s, limit, ch, r, x);
    DoKeepsInv(s, limit, TrimSecrets(ch));
    RunKeepsInv(s1, limit, es);
    assert Window(s1, limit, ch);
    RowWasInserted(s1, limit, es, ch, r);
    GoneIffOvertaken(Run(s1, limit, es), limit, ch, r);
  }

  /**
    One save between the two statements is enough: it pushes out the oldest row of
    a full chat, whose secret stays behind with no row to lead to it.
   */
  lemma InterleavedSaveLeavesSecret(s: State, limit: nat, ch: Chat, oldest: Row, newer: Row, x: Secret)
    requires Inv(s, limit) && ch in s.waiting
    requires oldest in s.rows && InChat(oldest, ch) && Later(ChatRows(s.rows, ch), oldest.timestamp) + 1 == limit
    requires InChat(newer, ch) && NewerInChat(s.inserts, newer) && !Conflicts(s.rows, newer)
    requires oldest.timestamp < newer.timestamp
    requires x in s.secrets && x.messageId == oldest.messageId
    ensures var t := TrimAround(s, limit, ch, [Save(newer)]);
            oldest !in t.rows && x in t.secrets
  {
    var s1 := Do(s, limit, TrimSecrets(ch));
    assert [Save(newer)][..0] == [];
    assert Run(s1, limit, [Save(newer)]) == Do(s1, limit, Save(newer));
    UnselectedIsSubsequence(s.rows, ch, limit, s.rows);
    SurvivorsKeepSecrets(s.rows, s.secrets, ch, limit, oldest, x);
    var full := s.rows + [newer];
    ChatRowsSnoc(s.rows, newer, ch);
    LaterGrows(ChatRows(s.rows, ch), [newer], oldest.timestamp);
    assert Later([newer], oldest.timestamp) == 1 by {
      assert [newer][..0] == [];
    }
    assert Selected(full, ch, limit, oldest);
    FullIsUnique(s.rows, newer);
    UnselectedIsSubsequence(full, ch, limit, full);
  }

  lemma FullIsUnique(rows: seq<Row>, r: Row)
    requires UniqueIds(rows) && !Conflicts(rows, r)
    ensures UniqueIds(rows + [r])
  {
    assert forall q <- rows :: q.user == r.user ==> q.messageId != r.messageId;
  }

  // ---------------------------------------------------------------------
  // The code
  // ---------------------------------------------------------------------

  /** The two tables; a reliable database fails no statement but for the unique constraint. */
  class Store {
    const reliable: bool
    var rows: seq<Row>
    var secrets: set<Secret>

    constructor (reliable: bool)
      ensures this.reliable == reliable && rows == [] && secrets == {}
    {
      this.reliable, this.rows, this.secrets := reliable, [], {};
    }

    /** saveMessageToHistory: one INSERT; the unique constraint or any other error makes it fail. */
    method SaveMessage(r: Row) returns (ok: bool)
      modifies this`rows
      ensures reliable ==> (ok <==> forall q <- old(rows) :: q.user != r.user || q.messageId != r.messageId)
      ensures ok ==> !Conflicts(old(rows), r) && rows == old(rows) + [r]
      ensures !ok ==> rows == old(rows)
    {
      ok := *;
      ok := ok || reliable;
      if Conflicts(rows, r) {
        ok := false;
      }
      if ok {
        rows := rows + [r];
      }
    }

    /** trimMessageHistory: secrets first, then the rows; an error in the first statement skips the second. */
    method TrimMessageHistory(ch: Chat, limit: nat) returns (ok: bool)
      modifies this
      ensures reliable ==> ok
      ensures ok ==> rows == Trimmed(old(rows), ch, limit)
      ensures ok ==> secrets == SecretsTrimmed(old(secrets), old(rows), ch, limit)
      ensures !ok ==> rows == old(rows)
      ensures !ok ==> secrets == old(secrets) || secrets == SecretsTrimmed(old(secrets), old(rows), ch, limit)
    {
      var first: bool := *;
      first := first || reliable;
      if !first {
        return false;
      }
      secrets := SecretsTrimmed(secrets, rows, ch, limit);
      ok := *;
      ok := ok || reliable;
      if ok {
        rows := Trimmed(rows, ch, limit);
      }
    }

    /**
      saveOutgoingMessageToHistory. When both statements succeed on a chat in
      timestamp order, the chat ends as the newest rows including the new one
      and no other chat has changed.
     */
    method SaveOutgoing(r: Row, limit: int) returns (saved: bool, trimmed: bool)
      modifies this
      ensures limit <= 0 ==> !saved && rows == old(rows) && secrets == old(secrets)
      ensures reliable ==> (saved <==> limit > 0 && forall q <- old(rows) :: q.user != r.user || q.messageId != r.messageId)
      ensures reliable ==> trimmed == saved
      ensures saved && trimmed ==> secrets == SecretsTrimmed(old(secrets), old(rows) + [r], Chat(r.user, r.jid), limit)
      ensures !saved ==> secrets == old(secrets)
      ensures saved && trimmed && Increasing(ChatRows(old(rows), Chat(r.user, r.jid))) && NewerInChat(old(rows), r) ==>
        var ch := Chat(r.user, r.jid);
        && ChatRows(rows, ch) == Newest(ChatRows(old(rows), ch) + [r], limit)
        && forall other: Chat :: other != ch ==> ChatRows(rows, other) == ChatRows(old(rows), other)
      ensures saved && !trimmed ==> rows == old(rows) + [r]
      ensures !saved ==> rows == old(rows)
    {
      saved, trimmed := false, false;
      if limit > 0 {
        saved := SaveMessage(r);
        if saved {
          ghost var full := rows;
          var ch := Chat(r.user, r.jid);
          trimmed := TrimMessageHistory(ch, limit);
          if trimmed && Increasing(ChatRows(old(rows), ch)) && NewerInChat(old(rows), r) {
            ChatRowsMembers(old(rows), ch);
            ChatRowsSnoc(old(rows), r, ch);
            forall other: Chat
              ensures ChatRows(rows, other) ==
                      if other == ch then Newest(ChatRows(full, ch), limit) else ChatRows(full, other)
            {
              TrimKeepsNewest(full, ch, limit, other);
            }
            forall other: Chat
              ensures ChatRows(full, other) ==
                      if other == ch then ChatRows(old(rows), ch) + [r] else ChatRows(old(rows), other)
            {
              ChatRowsSnoc(old(rows), r, other);
            }
          }
        }
      }
    }
  }
}
