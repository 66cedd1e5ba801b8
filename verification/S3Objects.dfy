/**
  Stored media of cmd/api/s3manager.go: the object keys it generates and the
  paginated loop that deletes everything a user ever uploaded.
 */
module S3Objects {
  import opened Common
  import Text

  // ---------------------------------------------------------------------
  // Object keys
  // ---------------------------------------------------------------------

  predicate Contains(s: string, sub: string) {
    sub <= s || (s != "" && Contains(s[1..], sub))
  }

  /** strings.ReplaceAll for one character. */
  function ReplaceAll(s: string, c: char, d: char): (r: string)
    ensures |r| == |s|
  {
    if s == "" then "" else [if s[0] == c then d else s[0]] + ReplaceAll(s[1..], c, d)
  }

  function CleanContact(jid: string): string {
    ReplaceAll(ReplaceAll(jid, '@', '_'), ':', '_')
  }

  function MediaFolder(mimeType: string): string {
    if "image/" <= mimeType then "images"
    else if "video/" <= mimeType then "videos"
    else if "audio/" <= mimeType then "audio"
    else "documents"
  }

  function Extension(mimeType: string): string {
    if Contains(mimeType, "jpeg") || Contains(mimeType, "jpg") then ".jpg"
    else if Contains(mimeType, "png") then ".png"
    else if Contains(mimeType, "gif") then ".gif"
    else if Contains(mimeType, "webp") then ".webp"
    else if Contains(mimeType, "mp4") then ".mp4"
    else if Contains(mimeType, "webm") then ".webm"
    else if Contains(mimeType, "ogg") then ".ogg"
    else if Contains(mimeType, "opus") then ".opus"
    else if Contains(mimeType, "pdf") then ".pdf"
    else if Contains(mimeType, "spreadsheetml") then ".xlsx"
    else if Contains(mimeType, "excel") then ".xls"
    else if Contains(mimeType, "doc") then (if Contains(mimeType, "docx") then ".docx" else ".doc")
    else ".bin"
  }

  /** What a stored message contributes to its key; the date strings come from the clock. */
  datatype Media = Media(contactJID: string, messageID: string, mimeType: string, isIncoming: bool,
                         year: string, month: string, day: string)

  function UserPrefix(userID: string): string {
    "users/" + userID + "/"
  }

  /** The parts of a key after the user id. */
  function TailParts(m: Media): seq<string> {
    [if m.isIncoming then "inbox" else "outbox", CleanContact(m.contactJID), m.year, m.month, m.day,
     MediaFolder(m.mimeType), m.messageID + Extension(m.mimeType)]
  }

  /** Everything in a key after the user's own prefix. */
  function KeyTail(m: Media): string {
    Text.Join(TailParts(m), '/')
  }

  /** GenerateS3Key. */
  function GenerateS3Key(userID: string, m: Media): string {
    "users/" + userID + "/" + KeyTail(m)
  }

  /** No part of what the caller and the clock supply holds a '/'. */
  predicate Plain(u: string, m: Media) {
    '/' !in u && '/' !in m.contactJID && '/' !in m.messageID && '/' !in m.year && '/' !in m.month && '/' !in m.day
  }

  lemma {:induction false} ReplaceAllAt(s: string, c: char, d: char, i: nat)
    requires i < |s|
    ensures ReplaceAll(s, c, d)[i] == if s[i] == c then d else s[i]
    decreases |s|
  {
    if i > 0 {
      ReplaceAllAt(s[1..], c, d, i - 1);
    }
  }

  /** Cleaning replaces '@' and ':' by '_', character by character. */
  lemma CleanContactAt(jid: string, i: nat)
    requires i < |jid|
    ensures |CleanContact(jid)| == |jid|
    ensures CleanContact(jid)[i] == if jid[i] == '@' || jid[i] == ':' then '_' else jid[i]
  {
    var once := ReplaceAll(jid, '@', '_');
    ReplaceAllAt(jid, '@', '_', i);
    ReplaceAllAt(once, ':', '_', i);
  }

  lemma CleanIsPlain(jid: string)
    requires '/' !in jid
    ensures '/' !in CleanContact(jid)
  {
    forall i | 0 <= i < |CleanContact(jid)|
      ensures CleanContact(jid)[i] != '/'
    {
      CleanContactAt(jid, i);
    }
  }

  lemma ExtensionIsPlain(mimeType: string)
    ensures '/' !in Extension(mimeType)
  {
  }

  lemma FolderIsPlain(mimeType: string)
    ensures '/' !in MediaFolder(mimeType)
  {
  }

  lemma TailIsPlain(u: string, m: Media)
    requires Plain(u, m)
    ensures forall p <- TailParts(m) :: '/' !in p
  {
    CleanIsPlain(m.contactJID);
    ExtensionIsPlain(m.mimeType);
    FolderIsPlain(m.mimeType);
  }

  lemma KeySplits(u: string, m: Media)
    requires Plain(u, m)
    ensures Text.Split(GenerateS3Key(u, m), '/') == ["users"] + ([u] + TailParts(m))
  {
    var rest := u + "/" + KeyTail(m);
    assert GenerateS3Key(u, m) == "users" + "/" + rest;
    Text.SplitFirst("users", rest, '/');
    Text.SplitFirst(u, KeyTail(m), '/');
    TailIsPlain(u, m);
    Text.SplitOfJoin(TailParts(m), '/');
  }

  lemma TailPartsAre(m: Media, tail: seq<string>)
    requires tail == TailParts(m)
    ensures |tail| == 7
    ensures (tail[0] == "inbox" <==> m.isIncoming) && (tail[0] == "outbox" <==> !m.isIncoming)
    ensures tail[1] == CleanContact(m.contactJID) && tail[2] == m.year && tail[3] == m.month && tail[4] == m.day
    ensures tail[5] == MediaFolder(m.mimeType) && m.messageID <= tail[6]
  {
    assert |"inbox"| == 5 && |"outbox"| == 6;
  }

  /**
    Taken apart at its slashes a key names, in this order: the fixed word users,
    the user, the direction, the contact, the date, the kind of media and the
    message.
   */
  lemma KeyNames(u: string, m: Media)
    requires Plain(u, m)
    ensures var parts := Text.Split(GenerateS3Key(u, m), '/');
            && |parts| == 9 && parts[0] == "users" && parts[1] == u
            && (parts[2] == "inbox" <==> m.isIncoming) && (parts[2] == "outbox" <==> !m.isIncoming)
            && parts[3] == CleanContact(m.contactJID)
            && parts[4] == m.year && parts[5] == m.month && parts[6] == m.day
            && (parts[7] == "images" <==> "image/" <= m.mimeType)
            && (parts[7] == "videos" <==> "video/" <= m.mimeType)
            && (parts[7] == "audio" <==> "audio/" <= m.mimeType)
            && m.messageID <= parts[8]
  {
    var tail := TailParts(m);
    KeySplits(u, m);
    TailPartsAre(m, tail);
    FolderIs(m.mimeType);
    var parts := ["users"] + ([u] + tail);
    assert forall i :: 0 <= i < 7 ==> parts[2 + i] == tail[i];
  }

  lemma FolderIs(mimeType: string)
    ensures MediaFolder(mimeType) == "images" <==> "image/" <= mimeType
    ensures MediaFolder(mimeType) == "videos" <==> "video/" <= mimeType
    ensures MediaFolder(mimeType) == "audio" <==> "audio/" <= mimeType
  {
    assert "image/" <= mimeType ==> mimeType[0] == 'i';
    assert "video/" <= mimeType ==> mimeType[0] == 'v';
    assert "audio/" <= mimeType ==> mimeType[0] == 'a';
    assert "images"[0] == 'i' && "videos"[0] == 'v' && "audio"[0] == 'a' && "documents"[0] == 'd';
  }

  /** A key falls under its own user's deletion prefix, and under no other user's, when ids hold no '/'. */
  lemma KeyBelongsToOneUser(u: string, v: string, m: Media)
    requires '/' !in u && '/' !in v
    ensures UserPrefix(u) <= GenerateS3Key(v, m) <==> u == v
  {
    var key := GenerateS3Key(v, m);
    var prefix := UserPrefix(u);
    assert key == UserPrefix(v) + KeyTail(m);
    if prefix <= key {
      assert prefix[6 + |u|] == '/' && key[6 + |v|] == '/';
      assert forall i :: 0 <= i < |u| ==> u[i] == prefix[6 + i] == key[6 + i];
      assert forall i :: 0 <= i < |v| ==> v[i] == key[6 + i];
    }
  }

  /** For ids of any shape, what decides is the text after the common "users/". */
  lemma KeyUnderPrefixIff(u: string, v: string, m: Media)
    ensures UserPrefix(u) <= GenerateS3Key(v, m) <==> u + "/" <= v + "/" + KeyTail(m)
  {
    var users, mine, key := "users/", u + "/", v + "/" + KeyTail(m);
    assert UserPrefix(u) == users + mine && GenerateS3Key(v, m) == users + key;
    CommonHead(users, mine, key);
  }

  lemma CommonHead(head: string, a: string, b: string)
    ensures head + a <= head + b <==> a <= b
  {
    if head + a <= head + b {
      assert forall i :: 0 <= i < |a| ==> a[i] == (head + a)[|head| + i] == (head + b)[|head| + i] == b[i];
    }
  }

  /** So with '/' in ids the separation fails: deleting any user u reaches into every user named u/w. */
  lemma SlashInIdLeaksDeletion(u: string, w: string, m: Media)
    ensures UserPrefix(u) <= GenerateS3Key(u + "/" + w, m)
  {
    KeyUnderPrefixIff(u, u + "/" + w, m);
    assert u + "/" + w + "/" + KeyTail(m) == u + "/" + (w + "/" + KeyTail(m));
  }

  // ---------------------------------------------------------------------
  // The object store
  // ---------------------------------------------------------------------

  /** A ListObjectsV2 reply; a continuation token is a position in the listing order. */
  datatype Page = Page(contents: seq<string>, isTruncated: Option<bool>, next: Option<nat>)

  predicate Distinct(s: seq<string>) {
    forall i, j :: 0 <= i < j < |s| ==> s[i] != s[j]
  }

  /** The keys that are live and under the prefix, in listing order. */
  function Listed(keys: seq<string>, live: set<string>, prefix: string): seq<string> {
    if keys == [] then []
    else
      var last := keys[|keys| - 1];
      Listed(keys[..|keys| - 1], live, prefix) + (if last in live && prefix <= last then [last] else [])
  }

  function Flatten(batches: seq<seq<string>>): seq<string> {
    if batches == [] then [] else Flatten(batches[..|batches| - 1]) + batches[|batches| - 1]
  }

  lemma ListedSplit(a: seq<string>, b: seq<string>, live: set<string>, prefix: string)
    ensures Listed(a + b, live, prefix) == Listed(a, live, prefix) + Listed(b, live, prefix)
    decreases |b|
  {
    if b == [] {
      assert a + b == a;
    } else {
      assert (a + b)[..|a + b| - 1] == a + b[..|b| - 1];
      ListedSplit(a, b[..|b| - 1], live, prefix);
    }
  }

  lemma {:induction false} ListedMembers(keys: seq<string>, live: set<string>, prefix: string)
    ensures forall k :: k in Listed(keys, live, prefix) <==> k in keys && k in live && prefix <= k
    decreases |keys|
  {
    if keys != [] {
      ListedMembers(keys[..|keys| - 1], live, prefix);
      assert keys == keys[..|keys| - 1] + [keys[|keys| - 1]];
    }
  }

  lemma {:induction false} ListedAgrees(keys: seq<string>, live: set<string>, live': set<string>, prefix: string)
    requires forall k <- keys :: k in live <==> k in live'
    ensures Listed(keys, live, prefix) == Listed(keys, live', prefix)
    decreases |keys|
  {
    if keys != [] {
      ListedAgrees(keys[..|keys| - 1], live, live', prefix);
    }
  }

  lemma {:induction false} ListedDistinct(keys: seq<string>, live: set<string>, prefix: string)
    requires Distinct(keys)
    ensures Distinct(Listed(keys, live, prefix))
    decreases |keys|
  {
    if keys != [] {
      var n := |keys| - 1;
      ListedDistinct(keys[..n], live, prefix);
      ListedMembers(keys[..n], live, prefix);
      assert keys[n] !in keys[..n];
    }
  }

  /**
    A bucket as the deletion loop sees it. `order` is the listing order of the
    keys present when the loop starts (nothing is uploaded meanwhile); `refused`
    are keys the service declines one by one inside a successful reply. A reliable
    service never fails a whole call.
   */
  class Bucket {
    const order: seq<string>
    const refused: set<string>
    const reliable: bool
    var live: set<string>
    ghost var batches: seq<seq<string>>

    ghost predicate Valid()
      reads this
    {
      Distinct(order) && forall k <- live :: k in order
    }

    constructor (order: seq<string>, refused: set<string>, reliable: bool)
      requires Distinct(order)
      ensures Valid() && this.order == order && this.refused == refused && this.reliable == reliable
      ensures live == (set k | k in order) && batches == []
    {
      this.order := order;
      this.refused := refused;
      this.reliable := reliable;
      this.live := set k | k in order;
      this.batches := [];
    }

    /** One page of at most 1000 keys. When more remain the reply says so and its token moves forward. */
    method ListObjectsV2(prefix: string, token: Option<nat>) returns (ok: bool, page: Page, ghost to: nat)
      requires token.Some? ==> token.value <= |order|
      ensures reliable ==> ok
      ensures ok ==>
        var from := if token.Some? then token.value else 0;
        && from <= to <= |order|
        && page.contents == Listed(order[from..to], live, prefix)
        && |page.contents| <= 1000
        && (page.isTruncated == Some(true) && page.next.Some? <==> to < |order|)
        && (to < |order| ==> page.next == Some(to) && from < to)
    {
      var from := if token.Some? then token.value else 0;
      ok := *;
      ok := ok || reliable;
      var end := from;
      if from < |order| {
        end := from + 1;
        assert order[from..end][..0] == [];
        var more: bool := *;
        while end < |order| && more
          invariant from < end <= |order| && |Listed(order[from..end], live, prefix)| <= 1000
          decreases |order| - end
        {
          if |Listed(order[from..end + 1], live, prefix)| > 1000 {
            break;
          }
          end := end + 1;
          more := *;
        }
      }
      page := Page(Listed(order[from..end], live, prefix), Some(end < |order|), if end < |order| then Some(end) else None);
      to := end;
    }

    /** Deletes one batch; a failed call may have deleted any part of it. */
    method DeleteObjects(keys: seq<string>) returns (ok: bool)
      requires 1 <= |keys| <= 1000
      modifies this
      ensures reliable ==> ok
      ensures ok ==> live == old(live) - (set k | k in keys && k !in refused) && batches == old(batches) + [keys]
      ensures !ok ==> live <= old(live) && batches == old(batches)
      ensures !ok ==> forall k <- old(live) :: k !in live ==> k in keys
    {
      ok := *;
      ok := ok || reliable;
      if ok {
        live := live - (set k | k in keys && k !in refused);
        batches := batches + [keys];
      } else {
        var n: nat :| n <= |keys|;
        live := live - (set k | k in keys[..n] && k !in refused);
      }
    }
  }

  /** Batches of exactly 1000 except for a shorter, non-empty last one. */
  ghost predicate FullBatches(batches: seq<seq<string>>) {
    && (forall i :: 0 <= i < |batches| ==> 1 <= |batches[i]| <= 1000)
    && forall i :: 0 <= i < |batches| - 1 ==> |batches[i]| == 1000
  }

  lemma FlattenSnoc(batches: seq<seq<string>>, b: seq<string>)
    ensures Flatten(batches + [b]) == Flatten(batches) + b
  {
    assert (batches + [b])[..|batches|] == batches;
  }

  /** The keys actually gone after the given requests have been served. */
  ghost function Remaining(live: set<string>, refused: set<string>, requested: seq<string>): set<string> {
    live - (set k | k in requested && k !in refused)
  }

  /** The loop's bookkeeping: `seen` are the keys met so far, sent in full batches or still waiting. */
  ghost predicate Swept(b: Bucket, live0: set<string>, seen: seq<string>, toDelete: seq<string>)
    reads b
  {
    && |toDelete| < 1000
    && Flatten(b.batches) + toDelete == seen
    && (forall i :: 0 <= i < |b.batches| ==> |b.batches[i]| == 1000)
    && b.live == Remaining(live0, b.refused, Flatten(b.batches))
  }

  /** What the loop has done once it has looked at the first `from` positions of the listing order. */
  ghost predicate Progress(b: Bucket, live0: set<string>, prefix: string, from: nat, toDelete: seq<string>)
    reads b
  {
    from <= |b.order| && Swept(b, live0, Listed(b.order[..from], live0, prefix), toDelete)
  }

  lemma PageIsUntouched(b: Bucket, live0: set<string>, prefix: string, from: nat, to: nat, toDelete: seq<string>)
    requires b.Valid() && Progress(b, live0, prefix, from, toDelete) && from <= to <= |b.order|
    ensures Listed(b.order[from..to], b.live, prefix) == Listed(b.order[from..to], live0, prefix)
    ensures Listed(b.order[..to], live0, prefix) ==
            Listed(b.order[..from], live0, prefix) + Listed(b.order[from..to], live0, prefix)
  {
    ListedMembers(b.order[..from], live0, prefix);
    forall k | k in b.order[from..to]
      ensures k in b.live <==> k in live0
    {
      assert k !in b.order[..from];
      assert k !in Flatten(b.batches) + toDelete;
    }
    ListedAgrees(b.order[from..to], b.live, live0, prefix);
    assert b.order[..to] == b.order[..from] + b.order[from..to];
    ListedSplit(b.order[..from], b.order[from..to], live0, prefix);
  }

  lemma BatchDone(b: Bucket, live0: set<string>, seen: seq<string>, before: seq<seq<string>>, batch: seq<string>, live1: set<string>)
    requires Flatten(before) + batch == seen
    requires live1 == Remaining(live0, b.refused, Flatten(before))
    requires b.batches == before + [batch]
    requires b.live == live1 - (set k | k in batch && k !in b.refused)
    ensures Flatten(b.batches) == seen
    ensures b.live == Remaining(live0, b.refused, Flatten(b.batches))
  {
    FlattenSnoc(before, batch);
  }

  lemma OneMore(sent: seq<string>, waiting: seq<string>, start: seq<string>, page: seq<string>, i: nat)
    requires i < |page| && sent + waiting == start + page[..i]
    ensures sent + (waiting + [page[i]]) == start + page[..i + 1]
  {
    assert sent + (waiting + [page[i]]) == sent + waiting + [page[i]];
  }

  /** The inner loop: queue the keys of one page, sending a batch whenever 1000 are waiting. */
  method SweepPage(b: Bucket, contents: seq<string>, waiting: seq<string>, ghost live0: set<string>, ghost start: seq<string>)
    returns (ok: bool, toDelete: seq<string>)
    requires b.Valid() && b.live <= live0 && Swept(b, live0, start, waiting)
    modifies b
    ensures b.Valid() && b.live <= live0
    ensures b.reliable ==> ok
    ensures ok ==> Swept(b, live0, start + contents, toDelete)
    ensures !ok ==> forall k <- live0 :: k !in b.live ==> k in start + contents
  {
    toDelete := waiting;
    assert start + contents[..0] == start;
    for i := 0 to |contents|
      invariant b.Valid() && b.live <= live0
      invariant Swept(b, live0, start + contents[..i], toDelete)
    {
      ghost var before, live1, seen := b.batches, b.live, start + contents[..i + 1];
      OneMore(Flatten(before), toDelete, start, contents, i);
      toDelete := toDelete + [contents[i]];
      if |toDelete| == 1000 {
        var deleted := b.DeleteObjects(toDelete);
        if !deleted {
          assert forall k :: k in Flatten(before) + toDelete ==> k in start + contents;
          return false, toDelete;
        }
        BatchDone(b, live0, seen, before, toDelete, live1);
        toDelete := [];
        assert Flatten(b.batches) + toDelete == seen;
      }
    }
    assert contents[..|contents|] == contents;
    return true, toDelete;
  }

  /**
    DeleteAllUserObjects. `client` says whether GetClient finds one for the user.

    On success every live key under the user's prefix was named in exactly one
    request, in listing order, in batches of 1000 and a shorter last one, and
    all of them are gone except those the service refused. On failure nothing
    outside the prefix has been touched.
   */
  method DeleteAllUserObjects(client: bool, b: Bucket, userID: string) returns (ok: bool)
    requires b.Valid() && b.batches == []
    modifies b
    ensures b.Valid() && b.live <= old(b.live)
    ensures forall k <- old(b.live) :: k !in b.live ==> "users/" + userID + "/" <= k
    ensures !client ==> !ok && b.live == old(b.live)
    ensures client && b.reliable ==> ok
    ensures ok ==> Flatten(b.batches) == Listed(b.order, old(b.live), UserPrefix(userID)) && FullBatches(b.batches)
    ensures ok ==> Deleted(old(b.live), b.live, b.refused, userID)
    ensures ok ==> ((forall k <- b.live :: !(UserPrefix(userID) <= k)) <==>
                    (forall k <- old(b.live) :: UserPrefix(userID) <= k ==> k !in b.refused))
  {
    if !client {
      return false;
    }
    var prefix := UserPrefix(userID);
    var toDelete: seq<string> := [];
    var token: Option<nat> := None;
    ghost var from: nat := 0;
    ghost var live0 := b.live;
    var more := true;
    while more
      invariant b.Valid() && b.live <= live0
      invariant more ==> (token == None && from == 0) || token == Some(from)
      invariant Progress(b, live0, prefix, from, toDelete)
      invariant !more ==> from == |b.order|
      decreases more, |b.order| - from
    {
      var listed, page, to := b.ListObjectsV2(prefix, token);
      ScopeOf(b.order, live0, prefix, from);
      if !listed {
        return false;
      }
      PageIsUntouched(b, live0, prefix, from, to, toDelete);
      ScopeOf(b.order, live0, prefix, to);
      ghost var start, seen := Listed(b.order[..from], live0, prefix), Listed(b.order[..to], live0, prefix);
      assert start + page.contents == seen;
      var swept;
      swept, toDelete := SweepPage(b, page.contents, toDelete, live0, start);
      if !swept {
        return false;
      }
      if page.isTruncated == Some(true) && page.next.Some? {
        token := page.next;
      } else {
        more := false;
      }
      from := to;
    }
    assert b.order[..from] == b.order;
    ScopeOf(b.order, live0, prefix, from);
    ghost var before, live1 := b.batches, b.live;
    if |toDelete| > 0 {
      var deleted := b.DeleteObjects(toDelete);
      if !deleted {
        return false;
      }
      BatchDone(b, live0, Listed(b.order, live0, prefix), before, toDelete, live1);
    }
    CleanIffNothingRefused(live0, b.live, b.refused, userID);
    return true;
  }

  lemma ScopeOf(order: seq<string>, live0: set<string>, prefix: string, from: nat)
    requires from <= |order|
    ensures forall k :: k in Listed(order[..from], live0, prefix) <==> k in order[..from] && k in live0 && prefix <= k
  {
    ListedMembers(order[..from], live0, prefix);
  }

  // ---------------------------------------------------------------------
  // Deleting a user, end to end
  // ---------------------------------------------------------------------

  /** The effect of a successful deletion, as DeleteAllUserObjects states it. */
  ghost predicate Deleted(live: set<string>, live': set<string>, refused: set<string>, userID: string) {
    forall k :: k in live' <==> k in live && (UserPrefix(userID) <= k ==> k in refused)
  }

  /**
    After deleting u, no media stored for u remains and every other user's media
    is still there (ids without '/'), as long as the service refused none of u's
    keys.
   */
  lemma DeletionIsExact(live: set<string>, live': set<string>, refused: set<string>, u: string, v: string, m: Media)
    requires Deleted(live, live', refused, u) && '/' !in u && '/' !in v
    requires GenerateS3Key(v, m) in live
    ensures GenerateS3Key(v, m) in live' <==> (u == v ==> GenerateS3Key(v, m) in refused)
  {
    KeyBelongsToOneUser(u, v, m);
  }

  /** The loop ignores per-key errors, so the prefix is empty afterwards exactly when nothing under it is refused. */
  lemma CleanIffNothingRefused(live: set<string>, live': set<string>, refused: set<string>, u: string)
    requires Deleted(live, live', refused, u)
    ensures (forall k <- live' :: !(UserPrefix(u) <= k)) <==> (forall k <- live :: UserPrefix(u) <= k ==> k !in refused)
  {
    if forall k <- live' :: !(UserPrefix(u) <= k) {
      forall k | k in live && UserPrefix(u) <= k
        ensures k !in refused
      {
        assert k !in live';
      }
    }
  }

  /** Every successful deletion leaves behind each object of the user that the service refused. */
  lemma RefusedKeySurvives(live: set<string>, live': set<string>, refused: set<string>, u: string, m: Media)
    requires Deleted(live, live', refused, u) && GenerateS3Key(u, m) in live
    ensures GenerateS3Key(u, m) in live' <==> GenerateS3Key(u, m) in refused
  {
    assert GenerateS3Key(u, m) == UserPrefix(u) + KeyTail(m);
  }

  /** Each key is requested once: the concatenated batches have no repetition. */
  lemma RequestedOnce(order: seq<string>, live: set<string>, userID: string, batches: seq<seq<string>>)
    requires Distinct(order) && Flatten(batches) == Listed(order, live, UserPrefix(userID))
    ensures Distinct(Flatten(batches))
  {
    ListedDistinct(order, live, UserPrefix(userID));
  }
}
