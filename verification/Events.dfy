/**
  Webhook event lists: how Connect stores them, how the dispatcher reads them
  back, and how the admin API validates them.
 */
module Events {

  import opened Text

  // ---------------------------------------------------------------------
  // The supported events
  // ---------------------------------------------------------------------

  const MESSAGES := ["Message", "UndecryptableMessage", "Receipt", "MediaRetry", "ReadReceipt"]
  const GROUPS := ["GroupInfo", "JoinedGroup", "Picture", "BlocklistChange", "Blocklist"]
  const CONNECTION := ["Connected", "Disconnected", "ConnectFailure", "KeepAliveRestored", "KeepAliveTimeout", "QRTimeout", "LoggedOut"]
  const SESSION := ["ClientOutdated", "TemporaryBan", "StreamError", "StreamReplaced"]
  const PAIRING := ["PairSuccess", "PairError", "QR", "QRScannedWithoutMultidevice"]
  const SETTINGS := ["PrivacySettings", "PushNameSetting", "UserAbout"]
  const SYNC := ["AppState", "AppStateSyncComplete", "HistorySync", "OfflineSyncCompleted", "OfflineSyncPreview"]
  const CALLS := ["CallOffer", "CallAccept", "CallTerminate", "CallOfferNotice", "CallRelayLatency"]
  const OTHERS := ["Presence", "ChatPresence", "IdentityChange", "CATRefreshError"]
  const NEWSLETTER := ["NewsletterJoin", "NewsletterLeave", "NewsletterMuteChange", "NewsletterLiveUpdate", "FBMessage", "All"]

  /** supportedEventTypes of cmd/api/constants.go, which Connect and the dispatcher consult. */
  predicate Supported(e: string) {
    e in MESSAGES || e in GROUPS || e in CONNECTION || e in SESSION || e in PAIRING || e in SETTINGS || e in SYNC ||
    e in CALLS || e in OTHERS || e in NEWSLETTER
  }

  const ADMIN_MESSAGES := ["Message", "UndecryptableMessage", "Receipt", "MediaRetry", "ReadReceipt"]
  const ADMIN_GROUPS := ["GroupInfo", "JoinedGroup", "Picture", "BlocklistChange", "Blocklist"]
  const ADMIN_CONNECTION := ["Connected", "Disconnected", "ConnectFailure", "KeepAliveRestored", "KeepAliveTimeout"]
  const ADMIN_LOGOUT := ["QRTimeout", "LoggedOut", "ClientOutdated", "TemporaryBan", "StreamError"]
  const ADMIN_PAIRING := ["StreamReplaced", "PairSuccess", "PairError", "QR", "QRScannedWithoutMultidevice"]
  const ADMIN_SETTINGS := ["PrivacySettings", "PushNameSetting", "UserAbout"]
  const ADMIN_SYNC := ["AppState", "AppStateSyncComplete", "HistorySync", "OfflineSyncCompleted", "OfflineSyncPreview"]
  const ADMIN_CALLS := ["CallOffer", "CallAccept", "CallTerminate", "CallOfferNotice", "CallRelayLatency"]
  const ADMIN_PRESENCE := ["Presence", "ChatPresence"]
  const ADMIN_SINGLES := ["IdentityChange", "CATRefreshError"]
  const ADMIN_NEWSLETTER := ["NewsletterJoin", "NewsletterLeave", "NewsletterMuteChange", "NewsletterLiveUpdate"]
  const ADMIN_REST := ["FBMessage", "All"]

  /** supportedEvents of internal/users/users.go, a list of its own, which the admin API consults. */
  predicate AdminSupported(e: string) {
    e in ADMIN_MESSAGES || e in ADMIN_GROUPS || e in ADMIN_CONNECTION || e in ADMIN_LOGOUT || e in ADMIN_PAIRING ||
    e in ADMIN_SETTINGS || e in ADMIN_SYNC || e in ADMIN_CALLS || e in ADMIN_PRESENCE || e in ADMIN_SINGLES ||
    e in ADMIN_NEWSLETTER || e in ADMIN_REST
  }

  lemma SessionListsAgree(e: string)
    ensures e in CONNECTION || e in SESSION || e in PAIRING <==> e in ADMIN_CONNECTION || e in ADMIN_LOGOUT || e in ADMIN_PAIRING
  {
    assert CONNECTION == ADMIN_CONNECTION + ADMIN_LOGOUT[..2];
    assert SESSION == ADMIN_LOGOUT[2..] + ADMIN_PAIRING[..1];
    assert PAIRING == ADMIN_PAIRING[1..];
    assert ADMIN_LOGOUT == ADMIN_LOGOUT[..2] + ADMIN_LOGOUT[2..];
    assert ADMIN_PAIRING == ADMIN_PAIRING[..1] + ADMIN_PAIRING[1..];
  }

  lemma OtherListsAgree(e: string)
    ensures e in OTHERS <==> e in ADMIN_PRESENCE || e in ADMIN_SINGLES
    ensures e in NEWSLETTER <==> e in ADMIN_NEWSLETTER || e in ADMIN_REST
  {
    assert OTHERS == ADMIN_PRESENCE + ADMIN_SINGLES;
    assert NEWSLETTER == ADMIN_NEWSLETTER + ADMIN_REST;
  }

  /** The two lists, kept apart in two packages, name the same events. */
  lemma ListsAgree(e: string)
    ensures AdminSupported(e) <==> Supported(e)
  {
    SessionListsAgree(e);
    OtherListsAgree(e);
  }

  predicate Letter(c: char) {
    'a' <= c <= 'z' || 'A' <= c <= 'Z'
  }

  /** A non-empty word of letters: nothing to trim and no comma. */
  predicate Word(e: string) {
    e != "" && forall i :: 0 <= i < |e| ==> Letter(e[i])
  }

  lemma MessagesAreWords(e: string)
    requires e in MESSAGES
    ensures Word(e)
  {
  }

  lemma GroupsAreWords(e: string)
    requires e in GROUPS
    ensures Word(e)
  {
  }

  lemma ConnectionAreWords(e: string)
    requires e in CONNECTION
    ensures Word(e)
  {
  }

  lemma SessionAreWords(e: string)
    requires e in SESSION
    ensures Word(e)
  {
  }

  lemma PairingAreWords(e: string)
    requires e in PAIRING
    ensures Word(e)
  {
  }

  lemma SettingsAreWords(e: string)
    requires e in SETTINGS
    ensures Word(e)
  {
  }

  lemma SyncAreWords(e: string)
    requires e in SYNC
    ensures Word(e)
  {
  }

  lemma CallsAreWords(e: string)
    requires e in CALLS
    ensures Word(e)
  {
  }

  lemma OthersAreWords(e: string)
    requires e in OTHERS
    ensures Word(e)
  {
  }

  lemma NewsletterAreWords(e: string)
    requires e in NEWSLETTER
    ensures Word(e)
  {
  }

  lemma SupportedAreWords(e: string)
    requires Supported(e)
    ensures Word(e)
  {
    if e in MESSAGES {
      MessagesAreWords(e);
    } else if e in GROUPS {
      GroupsAreWords(e);
    } else if e in CONNECTION {
      ConnectionAreWords(e);
    } else if e in SESSION {
      SessionAreWords(e);
    } else if e in PAIRING {
      PairingAreWords(e);
    } else if e in SETTINGS {
      SettingsAreWords(e);
    } else if e in SYNC {
      SyncAreWords(e);
    } else if e in CALLS {
      CallsAreWords(e);
    } else if e in OTHERS {
      OthersAreWords(e);
    } else {
      NewsletterAreWords(e);
    }
  }

  lemma WordsAreClean(e: string)
    requires Word(e)
    ensures ',' !in e && TrimSpace(e) == e
  {
    assert Letter(e[0]) && Letter(e[|e| - 1]);
  }

  /** All that the list lemmas need to know about the supported names. */
  ghost predicate Clean(p: string -> bool) {
    forall e: string :: p(e) ==> e != "" && ',' !in e && TrimSpace(e) == e
  }

  lemma SupportedIsClean()
    ensures Clean(Supported)
  {
    forall e: string | Supported(e)
      ensures e != "" && ',' !in e && TrimSpace(e) == e
    {
      SupportedAreWords(e);
      WordsAreClean(e);
    }
  }

  // ---------------------------------------------------------------------
  // Storing: Connect
  // ---------------------------------------------------------------------

  /** The events of the list that satisfy p, each once, at its first place. */
  function Kept(list: seq<string>, p: string -> bool): seq<string> {
    if list == [] then []
    else
      var n := |list| - 1;
      var before := Kept(list[..n], p);
      if p(list[n]) && list[n] !in before then before + [list[n]] else before
  }

  /** Find. */
  method Find(slice: seq<string>, val: string) returns (found: bool)
    ensures found <==> val in slice
  {
    for i := 0 to |slice|
      invariant val !in slice[..i]
    {
      if slice[i] == val {
        return true;
      }
      assert slice[..i + 1] == slice[..i] + [slice[i]];
    }
    assert slice[..|slice|] == slice;
    return false;
  }

  /** What Connect writes to the events column. */
  function Stored(list: seq<string>, p: string -> bool): string {
    if list == [] then Join([""]) else Join(Kept(list, p))
  }

  /** The event-list part of Connect; `supported` is Find(supportedEventTypes, _). */
  method StoreSubscription(subscribe: seq<string>, supported: string -> bool) returns (eventstring: string)
    ensures eventstring == Stored(subscribe, supported)
  {
    var subscribed: seq<string> := [];
    if |subscribe| < 1 {
      var there := Find(subscribed, "");
      if !there {
        subscribed := subscribed + [""];
      }
    } else {
      for i := 0 to |subscribe|
        invariant subscribed == Kept(subscribe[..i], supported)
      {
        var arg := subscribe[i];
        assert subscribe[..i + 1][..i] == subscribe[..i];
        if supported(arg) {
          var there := Find(subscribed, arg);
          if !there {
            subscribed := subscribed + [arg];
          }
        }
      }
      assert subscribe[..|subscribe|] == subscribe;
    }
    eventstring := Join(subscribed);
  }

  /** First position of e in the list. */
  function First(list: seq<string>, e: string): nat
    requires e in list
  {
    if list[0] == e then 0 else 1 + First(list[1..], e)
  }

  lemma {:induction false} FirstIs(list: seq<string>, e: string)
    requires e in list
    ensures var k := First(list, e); k < |list| && list[k] == e && e !in list[..k]
    decreases |list|
  {
    if list[0] != e {
      assert list == [list[0]] + list[1..];
      FirstIs(list[1..], e);
      var k := First(list[1..], e);
      assert list[..k + 1] == [list[0]] + list[1..][..k];
    }
  }

  lemma {:induction false} FirstUnique(list: seq<string>, e: string, k: nat)
    requires k < |list| && list[k] == e && e !in list[..k]
    ensures First(list, e) == k
    decreases |list|
  {
    if k > 0 {
      assert list[..k][0] == list[0];
      assert list[1..][..k - 1] == list[..k][1..];
      assert list[1..][k - 1] == e;
      FirstUnique(list[1..], e, k - 1);
    }
  }

  /** Kept has no repetitions, holds exactly the listed events that satisfy p, in order of first appearance. */
  ghost predicate KeepsFirsts(list: seq<string>, p: string -> bool, kept: seq<string>) {
    && (forall e :: e in kept <==> e in list && p(e))
    && (forall i, j :: 0 <= i < j < |kept| ==> kept[i] != kept[j] && First(list, kept[i]) < First(list, kept[j]))
  }

  lemma {:induction false} KeptKeepsFirsts(list: seq<string>, p: string -> bool)
    ensures KeepsFirsts(list, p, Kept(list, p))
    decreases |list|
  {
    if list != [] {
      var n := |list| - 1;
      var before, after := Kept(list[..n], p), Kept(list, p);
      KeptKeepsFirsts(list[..n], p);
      assert list == list[..n] + [list[n]];
      forall e | e in list[..n]
        ensures First(list, e) == First(list[..n], e) < n
      {
        FirstIs(list[..n], e);
        var k := First(list[..n], e);
        assert list[..n][..k] == list[..k];
        FirstUnique(list, e, k);
      }
      if |after| > |before| {
        assert list[n] !in list[..n];
        FirstUnique(list, list[n], n);
      }
    }
  }

  // ---------------------------------------------------------------------
  // Reading back: the dispatcher
  // ---------------------------------------------------------------------

  /** The trimmed parts that are not blank. */
  function NonBlank(parts: seq<string>): seq<string> {
    if parts == [] then []
    else
      var n := |parts| - 1;
      var arg := TrimSpace(parts[n]);
      if arg == "" then NonBlank(parts[..n]) else NonBlank(parts[..n]) + [arg]
  }

  function Filter(list: seq<string>, p: string -> bool): seq<string> {
    if list == [] then []
    else
      var n := |list| - 1;
      if p(list[n]) then Filter(list[..n], p) + [list[n]] else Filter(list[..n], p)
  }

  /** What the dispatcher subscribes to for a stored string. */
  function Dispatched(s: string, p: string -> bool): seq<string> {
    Filter(NonBlank(Split(s)), p)
  }

  lemma FilterSnoc(list: seq<string>, e: string, p: string -> bool)
    ensures Filter(list + [e], p) == if p(e) then Filter(list, p) + [e] else Filter(list, p)
  {
    assert (list + [e])[..|list|] == list;
  }

  /** Filtering is part by part, so FilterOne says what it does. */
  lemma {:induction false} FilterSplit(a: seq<string>, b: seq<string>, p: string -> bool)
    ensures Filter(a + b, p) == Filter(a, p) + Filter(b, p)
    decreases |b|
  {
    if b == [] {
      assert a + b == a;
    } else {
      var n := |b| - 1;
      assert (a + b)[..|a + b| - 1] == a + b[..n];
      FilterSplit(a, b[..n], p);
    }
  }

  lemma FilterOne(e: string, p: string -> bool)
    ensures Filter([e], p) == if p(e) then [e] else []
  {
    assert [e][..0] == [];
  }

  /** Dropping blanks is part by part, so NonBlankOne says what it does. */
  lemma {:induction false} NonBlankSplit(a: seq<string>, b: seq<string>)
    ensures NonBlank(a + b) == NonBlank(a) + NonBlank(b)
    decreases |b|
  {
    if b == [] {
      assert a + b == a;
    } else {
      var n := |b| - 1;
      assert (a + b)[..|a + b| - 1] == a + b[..n];
      NonBlankSplit(a, b[..n]);
    }
  }

  lemma NonBlankOne(e: string)
    ensures NonBlank([e]) == if TrimSpace(e) == "" then [] else [TrimSpace(e)]
  {
    assert [e][..0] == [];
  }

  /** A list of supported events joined as it is reads back as it is, repetitions included. */
  lemma JoinedReadsBack(list: seq<string>)
    ensures Dispatched(Join(Filter(list, Supported)), Supported) == Filter(list, Supported)
  {
    SupportedIsClean();
    var kept := Filter(list, Supported);
    FilterKeeps(list, Supported);
    if kept == [] {
      BlankOnly(Supported);
    } else {
      SplitOfJoin(kept, ',');
      CleanPartsStay(kept, Supported);
    }
  }

  lemma {:induction false} FilterKeeps(list: seq<string>, p: string -> bool)
    ensures forall e <- Filter(list, p) :: p(e)
    decreases |list|
  {
    if list != [] {
      FilterKeeps(list[..|list| - 1], p);
    }
  }

  lemma BlankOnly(p: string -> bool)
    ensures Filter(NonBlank([""]), p) == []
  {
    assert [""][..0] == [];
    assert TrimSpace("") == "";
  }

  /** updateAndGetUserSubscriptions, given the events string it found. */
  method ReadSubscription(currentEvents: string, supported: string -> bool) returns (subscribed: seq<string>)
    ensures subscribed == Dispatched(currentEvents, supported)
  {
    var eventarray := Split(currentEvents);
    subscribed := [];
    if |eventarray| == 1 && eventarray[0] == "" {
      assert eventarray == [""];
      BlankOnly(supported);
      return;
    }
    for i := 0 to |eventarray|
      invariant subscribed == Filter(NonBlank(eventarray[..i]), supported)
    {
      var arg := TrimSpace(eventarray[i]);
      assert eventarray[..i + 1][..i] == eventarray[..i];
      FilterSnoc(NonBlank(eventarray[..i]), arg, supported);
      if arg != "" && supported(arg) {
        subscribed := subscribed + [arg];
      }
    }
    assert eventarray[..|eventarray|] == eventarray;
  }

  lemma {:induction false} CleanPartsStay(parts: seq<string>, p: string -> bool)
    requires forall e <- parts :: p(e) && e != "" && TrimSpace(e) == e
    ensures NonBlank(parts) == parts && Filter(parts, p) == parts
    decreases |parts|
  {
    if parts != [] {
      var n := |parts| - 1;
      assert parts == parts[..n] + [parts[n]];
      assert forall e <- parts[..n] :: e in parts;
      CleanPartsStay(parts[..n], p);
    }
  }

  /** The stored string is the kept events with a comma between each two, and nothing else. */
  lemma StoredSplits(list: seq<string>)
    ensures Kept(list, Supported) == [] ==> Stored(list, Supported) == ""
    ensures Kept(list, Supported) != [] ==> Split(Stored(list, Supported), ',') == Kept(list, Supported)
  {
    var kept := Kept(list, Supported);
    SupportedIsClean();
    KeptKeepsFirsts(list, Supported);
    if kept != [] {
      forall e | e in kept
        ensures ',' !in e
      {
      }
      SplitOfJoin(kept, ',');
    }
  }

  /** The stored string is read back as exactly the kept events, in order. */
  lemma StoredReadsBack(list: seq<string>, p: string -> bool)
    requires Clean(p)
    ensures Dispatched(Stored(list, p), p) == Kept(list, p)
  {
    var kept := Kept(list, p);
    KeptKeepsFirsts(list, p);
    if list == [] || kept == [] {
      assert Stored(list, p) == "";
      BlankOnly(p);
    } else {
      forall e | e in kept
        ensures p(e) && e != "" && ',' !in e && TrimSpace(e) == e
      {
      }
      SplitOfJoin(kept, ',');
      CleanPartsStay(kept, p);
    }
  }

  /**
    For every request list, what Connect stores is what the dispatcher later
    subscribes to: the supported events of the request, without repetitions, in
    the order they were first asked for.
   */
  lemma SubscriptionRoundTrip(list: seq<string>)
    ensures KeepsFirsts(list, Supported, Dispatched(Stored(list, Supported), Supported))
  {
    SupportedIsClean();
    StoredReadsBack(list, Supported);
    KeptKeepsFirsts(list, Supported);
  }

  // ---------------------------------------------------------------------
  // Admin validation
  // ---------------------------------------------------------------------

  /** Valid, or the first part that is not supported. */
  datatype Verdict = Valid | Invalid(event: string)

  /** The loop of ValidateEvents, for any set of supported events. */
  method CheckEvents(events: string, supported: string -> bool) returns (v: Verdict)
    ensures v.Valid? <==> forall e <- NonBlank(Split(events)) :: supported(e)
    ensures v.Invalid? ==> v.event in NonBlank(Split(events)) && !supported(v.event)
  {
    var parts := Split(events);
    if events == "" {
      assert parts == [""];
      BlankOnly(supported);
      assert [""][..0] == [];
      return Valid;
    }
    for i := 0 to |parts|
      invariant forall e <- NonBlank(parts[..i]) :: supported(e)
    {
      var ev := TrimSpace(parts[i]);
      assert parts[..i + 1][..i] == parts[..i];
      if ev != "" && !supported(ev) {
        NonBlankHas(parts, i);
        return Invalid(ev);
      }
    }
    assert parts[..|parts|] == parts;
    return Valid;
  }

  /** ValidateEvents, against the admin API's own list. */
  method ValidateEvents(events: string) returns (v: Verdict)
    ensures v.Valid? <==> Accepted(events)
    ensures v.Invalid? ==> v.event in NonBlank(Split(events)) && !AdminSupported(v.event)
  {
    v := CheckEvents(events, AdminSupported);
  }

  lemma {:induction false} NonBlankHas(parts: seq<string>, i: nat)
    requires i < |parts| && TrimSpace(parts[i]) != ""
    ensures TrimSpace(parts[i]) in NonBlank(parts)
    decreases |parts|
  {
    var n := |parts| - 1;
    if i < n {
      NonBlankHas(parts[..n], i);
    }
  }

  lemma {:induction false} FilterKeepsAllIff(list: seq<string>, p: string -> bool)
    ensures Filter(list, p) == list <==> forall e <- list :: p(e)
    ensures |Filter(list, p)| <= |list|
    decreases |list|
  {
    if list != [] {
      var n := |list| - 1;
      FilterKeepsAllIff(list[..n], p);
      assert list == list[..n] + [list[n]];
      if p(list[n]) && Filter(list, p) == list {
        assert Filter(list, p)[..n] == list[..n];
      }
    }
  }

  /** What ValidateEvents accepts. */
  ghost predicate Accepted(events: string) {
    forall e <- NonBlank(Split(events)) :: AdminSupported(e)
  }

  /**
    The admin API and the dispatcher look in two different lists, and still a
    string passes ValidateEvents exactly when the dispatcher, once the string is
    stored, loses none of its non-blank events.
   */
  lemma ValidIffNothingLost(events: string)
    ensures Accepted(events) <==> Dispatched(events, Supported) == NonBlank(Split(events))
  {
    var parts := NonBlank(Split(events));
    forall e | e in parts
      ensures AdminSupported(e) <==> Supported(e)
    {
      ListsAgree(e);
    }
    FilterKeepsAllIff(parts, Supported);
  }
}
