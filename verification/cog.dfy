/** The decision logic of the chat commands: submission with its three gates,
    the public listing, the per-entry permission rule, the moderators'
    review commands and the entry-id autocompletion. Chat I/O is left out;
    each command returns the state it leaves behind and a typed outcome in
    place of the message it would send. */
module ArtCog {
  import opened Basics
  import opened ArtModels
  import opened HexId
  import opened EntryQuery

  /** The two tables the commands read and write. */
  datatype State = State(settings: SettingsTable, entries: Store)

  // ----- submit -----

  /** The arguments of the submit command, with the player and ball already resolved. */
  datatype Submission = Submission(
    player: nat, ball: nat, mediaUrl: string, title: Option<string>, description: Option<string>)

  datatype SubmitError = SubmissionsDisabled | QuotaExceeded(limit: nat) | InvalidMedia

  /** Keys of the player's entries created at or after the start of the day. */
  function TodaySubmissions(store: Store, player: nat, todayStart: nat): set<nat> {
    set k | k in store && store[k].artist == player && store[k].createdAt >= todayStart
  }

  function TodayCount(store: Store, player: nat, todayStart: nat): nat {
    |TodaySubmissions(store, player, todayStart)|
  }

  predicate StartsWith(s: string, prefix: string) {
    |prefix| <= |s| && s[..|prefix|] == prefix
  }

  /** The only check made on the media link: an http or https prefix. */
  predicate ValidMedia(url: string) {
    StartsWith(url, "http://") || StartsWith(url, "https://")
  }

  /** The prefix check accepts exactly the links that are "http://" or
      "https://" followed by anything. */
  lemma ValidMediaIff(url: string)
    ensures ValidMedia(url) <==> exists rest :: url == "http://" + rest || url == "https://" + rest
  {
    if StartsWith(url, "http://") {
      assert url == "http://" + url[7..];
    } else if StartsWith(url, "https://") {
      assert url == "https://" + url[8..];
    }
    if exists rest :: url == "http://" + rest || url == "https://" + rest {
      var rest :| url == "http://" + rest || url == "https://" + rest;
      if url == "http://" + rest {
        assert url[..7] == "http://";
      } else {
        assert url[..8] == "https://";
      }
    }
  }

  /** The status a new entry starts in under the given settings. */
  function InitialStatus(config: Settings): (s: Status)
    ensures s == Pending <==> config.requireApproval
    ensures s != Rejected
  {
    if config.requireApproval then Pending else Approved
  }

  /** The submit command. Settings are read (and created when missing)
      first; then the master switch, the daily quota and the link prefix are
      checked in that order, and only when all pass is one entry stored under
      the fresh key `newId` the store hands out. `now` is the clock reading
      and `todayStart` the start of the current day. */
  function Submit(st: State, sub: Submission, newId: nat, now: nat, todayStart: nat)
    : (r: (State, Result<nat, SubmitError>))
    requires newId !in st.entries
    ensures r.0.settings == GetSolo(st.settings).0
    ensures var config := GetSolo(st.settings).1;
      && (r.1 == Err(SubmissionsDisabled) <==> !config.enabled)
      && (r.1 == Err(QuotaExceeded(config.maxSubmissionsPerDay)) <==>
           config.enabled && TodayCount(st.entries, sub.player, todayStart) >= config.maxSubmissionsPerDay)
      && (r.1 == Err(InvalidMedia) <==>
           config.enabled && TodayCount(st.entries, sub.player, todayStart) < config.maxSubmissionsPerDay
           && !ValidMedia(sub.mediaUrl))
    ensures r.1.Err? ==> r.0.entries == st.entries
    ensures r.1.Ok? ==>
      && r.1.value == newId
      && r.0.entries.Keys == st.entries.Keys + {newId}
      && (forall k :: k in st.entries ==> r.0.entries[k] == st.entries[k])
    ensures r.1.Ok? ==> r.0.entries[newId].status == InitialStatus(GetSolo(st.settings).1)
    ensures r.1.Ok? ==>
      var e := r.0.entries[newId];
      && e.artist == sub.player && e.ball == sub.ball && e.mediaUrl == sub.mediaUrl
      && e.title == OrEmpty(sub.title) && e.description == OrEmpty(sub.description)
      && e.createdAt == now && e.enabled && e.reviewedBy.None? && WellFormed(e)
  {
    var (settings, config) := GetSolo(st.settings);
    var st1 := st.(settings := settings);
    if !config.enabled then (st1, Err(SubmissionsDisabled))
    else if TodayCount(st.entries, sub.player, todayStart) >= config.maxSubmissionsPerDay then
      (st1, Err(QuotaExceeded(config.maxSubmissionsPerDay)))
    else if !ValidMedia(sub.mediaUrl) then (st1, Err(InvalidMedia))
    else
      var e := NewEntry(sub.ball, sub.player, OrEmpty(sub.title), OrEmpty(sub.description),
                        sub.mediaUrl, Some(InitialStatus(config)), now);
      (st1.(entries := st.entries[newId := e]), Ok(newId))
  }

  lemma TodayCountInsert(store: Store, k: nat, e: Entry, player: nat, todayStart: nat)
    requires k !in store
    ensures TodayCount(store[k := e], player, todayStart) ==
            TodayCount(store, player, todayStart) + (if e.artist == player && e.createdAt >= todayStart then 1 else 0)
  {
    var before := TodaySubmissions(store, player, todayStart);
    var after := TodaySubmissions(store[k := e], player, todayStart);
    if e.artist == player && e.createdAt >= todayStart {
      assert after == before + {k};
    } else {
      assert after == before;
    }
  }

  /** A successful submission adds one to the submitter's count for the day
      (the day started no later than the submission) and to nobody else's. */
  lemma SubmitCounts(st: State, sub: Submission, newId: nat, now: nat, todayStart: nat, player: nat)
    requires newId !in st.entries && todayStart <= now
    ensures var r := Submit(st, sub, newId, now, todayStart);
      TodayCount(r.0.entries, player, todayStart) ==
      TodayCount(st.entries, player, todayStart) + (if r.1.Ok? && player == sub.player then 1 else 0)
  {
    var r := Submit(st, sub, newId, now, todayStart);
    if r.1.Ok? {
      TodayCountInsert(st.entries, newId, r.0.entries[newId], player, todayStart);
      assert r.0.entries == st.entries[newId := r.0.entries[newId]];
    }
  }

  predicate FreshIds(store: Store, ids: seq<nat>) {
    && (forall i :: 0 <= i < |ids| ==> ids[i] !in store)
    && (forall i, j :: 0 <= i < j < |ids| ==> ids[i] != ids[j])
  }

  /** The same submission repeated, one after another, within one day; the
      i-th attempt is handed the fresh key `ids[i]`. */
  function SubmitDay(st: State, sub: Submission, ids: seq<nat>, now: nat, todayStart: nat)
    : (r: (State, seq<Result<nat, SubmitError>>))
    requires FreshIds(st.entries, ids)
    ensures |r.1| == |ids|
    decreases |ids|
  {
    if ids == [] then (st, [])
    else
      var (st1, out) := Submit(st, sub, ids[0], now, todayStart);
      assert FreshIds(st1.entries, ids[1..]);
      var (st2, outs) := SubmitDay(st1, sub, ids[1..], now, todayStart);
      (st2, [out] + outs)
  }

  /** The daily quota, for sequential submissions with submissions enabled
      and a valid link: the i-th attempt of the day succeeds exactly when the
      earlier count plus i is below the cap, and every other attempt fails
      with the cap reported. */
  lemma {:induction false} QuotaSequence(st: State, sub: Submission, ids: seq<nat>, now: nat, todayStart: nat)
    requires FreshIds(st.entries, ids)
    requires todayStart <= now && ValidMedia(sub.mediaUrl) && GetSolo(st.settings).1.enabled
    ensures var config := GetSolo(st.settings).1;
      var c := TodayCount(st.entries, sub.player, todayStart);
      var outs := SubmitDay(st, sub, ids, now, todayStart).1;
      forall i :: 0 <= i < |ids| ==>
        (outs[i] == Ok(ids[i]) <==> c + i < config.maxSubmissionsPerDay)
        && (outs[i] != Ok(ids[i]) ==> outs[i] == Err(QuotaExceeded(config.maxSubmissionsPerDay)))
    decreases |ids|
  {
    if ids != [] {
      var config := GetSolo(st.settings).1;
      var c := TodayCount(st.entries, sub.player, todayStart);
      var (st1, out) := Submit(st, sub, ids[0], now, todayStart);
      assert FreshIds(st1.entries, ids[1..]);
      GetSoloIdempotent(st.settings);
      assert GetSolo(st1.settings).1 == config;
      SubmitCounts(st, sub, ids[0], now, todayStart, sub.player);
      QuotaSequence(st1, sub, ids[1..], now, todayStart);
      var outs := SubmitDay(st, sub, ids, now, todayStart).1;
      assert outs == [out] + SubmitDay(st1, sub, ids[1..], now, todayStart).1;
    }
  }

  /** With cap N and no submission yet today, N submissions succeed and the
      next one fails with the cap; with N = 0 the first one already fails. */
  lemma QuotaCap(st: State, sub: Submission, ids: seq<nat>, now: nat, todayStart: nat)
    requires FreshIds(st.entries, ids)
    requires todayStart <= now && ValidMedia(sub.mediaUrl) && GetSolo(st.settings).1.enabled
    requires TodayCount(st.entries, sub.player, todayStart) == 0
    requires |ids| == GetSolo(st.settings).1.maxSubmissionsPerDay + 1
    ensures var outs := SubmitDay(st, sub, ids, now, todayStart).1;
      && (forall i :: 0 <= i < |ids| - 1 ==> outs[i] == Ok(ids[i]))
      && outs[|ids| - 1] == Err(QuotaExceeded(|ids| - 1))
  {
    QuotaSequence(st, sub, ids, now, todayStart);
  }

  /** Every stored entry keeps reviewer and review time together through a submission. */
  lemma SubmitPreservesWellFormed(st: State, sub: Submission, newId: nat, now: nat, todayStart: nat)
    requires newId !in st.entries && StoreWellFormed(st.entries)
    ensures StoreWellFormed(Submit(st, sub, newId, now, todayStart).0.entries)
  {
  }

  // ----- view -----

  datatype ViewError = ViewingDisabled

  /** What the public listing shows for a ball. */
  predicate Visible(e: Entry, ball: nat) {
    e.ball == ball && e.status == Approved && e.enabled
  }

  function VisibleIds(store: Store, ball: nat): set<nat> {
    set k | k in store && Visible(store[k], ball)
  }

  const ViewLimit: nat := 10

  /** The view command: with viewing enabled, the visible entries of the
      ball, newest first, at most ten; entries are never changed, though the
      settings row may be created. */
  method View(st: State, ball: nat) returns (st': State, r: Result<seq<nat>, ViewError>)
    ensures st'.settings == GetSolo(st.settings).0 && st'.entries == st.entries
    ensures r.Err? <==> !GetSolo(st.settings).1.enabled
    ensures r.Ok? ==> forall i :: 0 <= i < |r.value| ==>
      r.value[i] in st.entries && Visible(st.entries[r.value[i]], ball)
    ensures r.Ok? ==> OrderedByCreation(st.entries, r.value, true)
    ensures r.Ok? ==> |r.value| == Min(ViewLimit, |VisibleIds(st.entries, ball)|)
    ensures r.Ok? ==> forall i, j :: 0 <= i < j < |r.value| ==> r.value[i] != r.value[j]
    ensures r.Ok? ==> forall k, i :: k in VisibleIds(st.entries, ball) && k !in r.value && 0 <= i < |r.value| ==>
      st.entries[r.value[i]].createdAt >= st.entries[k].createdAt
  {
    var (settings, config) := GetSolo(st.settings);
    st' := st.(settings := settings);
    if !config.enabled {
      return st', Err(ViewingDisabled);
    }
    var ids := SelectOrdered(st.entries, VisibleIds(st.entries, ball), true, ViewLimit);
    r := Ok(ids);
  }

  // ----- info and review -----

  datatype CommandError = NotStaff | InvalidId | NotFound | Forbidden | AlreadyApproved | AlreadyRejected

  /** Who may see an entry's details: staff, anyone once it is approved, and
      its own artist. */
  predicate CanView(e: Entry, requester: nat, isStaff: bool) {
    isStaff || e.status == Approved || e.artist == requester
  }

  /** The info command: parse the id, look the entry up, then apply the
      permission rule. The settings switch is not consulted. */
  function Info(store: Store, idText: string, requester: nat, isStaff: bool): (r: Result<Entry, CommandError>)
    ensures ParseEntryId(idText).None? ==> r == Err(InvalidId)
    ensures ParseEntryId(idText).Some? && ParseEntryId(idText).value !in store ==> r == Err(NotFound)
    ensures r.Ok? ==>
      && ParseEntryId(idText).Some? && ParseEntryId(idText).value in store
      && r.value == store[ParseEntryId(idText).value]
    ensures r == Err(Forbidden) <==>
      ParseEntryId(idText).Some? && ParseEntryId(idText).value in store
      && !CanView(store[ParseEntryId(idText).value], requester, isStaff)
    ensures (ParseEntryId(idText).Some? && ParseEntryId(idText).value in store
      && CanView(store[ParseEntryId(idText).value], requester, isStaff)) ==>
      r == Ok(store[ParseEntryId(idText).value])
  {
    match ParseEntryId(idText)
    case None => Err(InvalidId)
    case Some(k) =>
      if k !in store then Err(NotFound)
      else if !CanView(store[k], requester, isStaff) then Err(Forbidden)
      else Ok(store[k])
  }

  /** A malformed id is reported before the store is consulted: the answer
      does not depend on the store's contents. */
  lemma InvalidIdBeforeLookup(s1: Store, s2: Store, idText: string, requester: nat, isStaff: bool)
    requires ParseEntryId(idText).None?
    ensures Info(s1, idText, requester, isStaff) == Info(s2, idText, requester, isStaff) == Err(InvalidId)
  {
  }

  /** Every entry the public listing shows can be opened by anybody through
      the id the listing displays ("#" followed by the key in hex). */
  lemma ListedEntriesOpen(store: Store, ball: nat, k: nat, requester: nat, isStaff: bool)
    requires k in VisibleIds(store, ball)
    ensures Info(store, "#" + FormatHex(k), requester, isStaff) == Ok(store[k])
  {
    ParseFormatRoundTrip(k);
  }

  /** A pending or rejected entry is hidden from every player but its artist
      and staff. */
  lemma UnapprovedIsPrivate(store: Store, k: nat, requester: nat)
    requires k in store && store[k].status != Approved && store[k].artist != requester
    ensures Info(store, FormatHex(k), requester, false) == Err(Forbidden)
  {
    ParseFormatRoundTrip(k);
  }

  /** The review approve command: staff gate, id parse, lookup, the
      already-approved guard, then the transition on that one entry. */
  function ReviewApprove(store: Store, isStaff: bool, idText: string, reviewer: nat, now: nat)
    : (r: (Store, Result<nat, CommandError>))
    ensures r.1.Err? ==> r.0 == store
    ensures !isStaff ==> r.1 == Err(NotStaff)
    ensures isStaff && ParseEntryId(idText).None? ==> r.1 == Err(InvalidId)
    ensures isStaff && ParseEntryId(idText).Some? && ParseEntryId(idText).value !in store ==>
      r == (store, Err(NotFound))
    ensures (isStaff && ParseEntryId(idText).Some? && ParseEntryId(idText).value in store
      && store[ParseEntryId(idText).value].status != Approved) ==>
      r.1 == Ok(ParseEntryId(idText).value)
    ensures r.1 == Err(AlreadyApproved) <==>
      isStaff && ParseEntryId(idText).Some? && ParseEntryId(idText).value in store
      && store[ParseEntryId(idText).value].status == Approved
    ensures r.1.Ok? ==>
      && isStaff && ParseEntryId(idText) == Some(r.1.value) && r.1.value in store
      && store[r.1.value].status != Approved
      && r.0 == store[r.1.value := Approve(store[r.1.value], reviewer, now)]
  {
    if !isStaff then (store, Err(NotStaff))
    else match ParseEntryId(idText)
      case None => (store, Err(InvalidId))
      case Some(k) =>
        if k !in store then (store, Err(NotFound))
        else if store[k].status == Approved then (store, Err(AlreadyApproved))
        else (store[k := Approve(store[k], reviewer, now)], Ok(k))
  }

  /** The review reject command: as approve, with the already-rejected guard
      and the given reason (empty when none is given). */
  function ReviewReject(store: Store, isStaff: bool, idText: string, reviewer: nat, now: nat, reason: Option<string>)
    : (r: (Store, Result<nat, CommandError>))
    ensures r.1.Err? ==> r.0 == store
    ensures !isStaff ==> r.1 == Err(NotStaff)
    ensures isStaff && ParseEntryId(idText).None? ==> r.1 == Err(InvalidId)
    ensures isStaff && ParseEntryId(idText).Some? && ParseEntryId(idText).value !in store ==>
      r == (store, Err(NotFound))
    ensures (isStaff && ParseEntryId(idText).Some? && ParseEntryId(idText).value in store
      && store[ParseEntryId(idText).value].status != Rejected) ==>
      r.1 == Ok(ParseEntryId(idText).value)
    ensures r.1 == Err(AlreadyRejected) <==>
      isStaff && ParseEntryId(idText).Some? && ParseEntryId(idText).value in store
      && store[ParseEntryId(idText).value].status == Rejected
    ensures r.1.Ok? ==>
      && isStaff && ParseEntryId(idText) == Some(r.1.value) && r.1.value in store
      && store[r.1.value].status != Rejected
      && r.0 == store[r.1.value := Reject(store[r.1.value], reviewer, now, OrEmpty(reason))]
  {
    if !isStaff then (store, Err(NotStaff))
    else match ParseEntryId(idText)
      case None => (store, Err(InvalidId))
      case Some(k) =>
        if k !in store then (store, Err(NotFound))
        else if store[k].status == Rejected then (store, Err(AlreadyRejected))
        else (store[k := Reject(store[k], reviewer, now, OrEmpty(reason))], Ok(k))
  }

  /** A staff review of an existing, undecided entry succeeds, and repeating
      the same decision is refused without touching the store. */
  lemma {:induction false} ReviewTwice(store: Store, k: nat, reviewer: nat, t1: nat, t2: nat, reason: Option<string>)
    requires k in store && store[k].status == Pending
    ensures var (s1, r1) := ReviewApprove(store, true, FormatHex(k), reviewer, t1);
      r1 == Ok(k) && s1[k].status == Approved
      && ReviewApprove(s1, true, FormatHex(k), reviewer, t2) == (s1, Err(AlreadyApproved))
    ensures var (s1, r1) := ReviewReject(store, true, FormatHex(k), reviewer, t1, reason);
      r1 == Ok(k) && s1[k].status == Rejected
      && ReviewReject(s1, true, FormatHex(k), reviewer, t2, reason) == (s1, Err(AlreadyRejected))
  {
    ParseFormatRoundTrip(k);
  }

  /** Re-moderation through the commands: an approved entry can be rejected
      and a rejected entry approved; the result records the latest decision. */
  lemma ReviewReverses(store: Store, k: nat, reviewer: nat, now: nat, reason: Option<string>)
    requires k in store
    ensures store[k].status == Approved ==>
      ReviewReject(store, true, FormatHex(k), reviewer, now, reason).0[k]
        == Reject(store[k], reviewer, now, OrEmpty(reason))
    ensures store[k].status == Rejected ==>
      ReviewApprove(store, true, FormatHex(k), reviewer, now).0[k] == Approve(store[k], reviewer, now)
      && ReviewApprove(store, true, FormatHex(k), reviewer, now).0[k].rejectionReason == ""
  {
    ParseFormatRoundTrip(k);
  }

  /** The review commands keep reviewer and review time together. */
  lemma ReviewPreservesWellFormed(store: Store, isStaff: bool, idText: string, reviewer: nat, now: nat, reason: Option<string>)
    requires StoreWellFormed(store)
    ensures StoreWellFormed(ReviewApprove(store, isStaff, idText, reviewer, now).0)
    ensures StoreWellFormed(ReviewReject(store, isStaff, idText, reviewer, now, reason).0)
  {
  }

  function PendingIds(store: Store): set<nat> {
    set k | k in store && store[k].status == Pending
  }

  const ReviewListLimit: nat := 25

  /** The review list command: for staff, the pending entries oldest first,
      at most 25. */
  method ReviewList(store: Store, isStaff: bool) returns (r: Result<seq<nat>, CommandError>)
    ensures r.Err? <==> !isStaff
    ensures r.Err? ==> r.error == NotStaff
    ensures r.Ok? ==> forall i :: 0 <= i < |r.value| ==> r.value[i] in store && store[r.value[i]].status == Pending
    ensures r.Ok? ==> OrderedByCreation(store, r.value, false)
    ensures r.Ok? ==> |r.value| == Min(ReviewListLimit, |PendingIds(store)|)
    ensures r.Ok? ==> forall k, i :: k in PendingIds(store) && k !in r.value && 0 <= i < |r.value| ==>
      store[r.value[i]].createdAt <= store[k].createdAt
  {
    if !isStaff {
      return Err(NotStaff);
    }
    var ids := SelectOrdered(store, PendingIds(store), false, ReviewListLimit);
    r := Ok(ids);
  }

  // ----- entry-id autocompletion -----

  /** ASCII case folding, the part of a case-insensitive match the model keeps. */
  function Lower(c: char): char {
    if 'A' <= c <= 'Z' then (c as int + 32) as char else c
  }

  function LowerString(s: string): (r: string)
    ensures |r| == |s|
  {
    seq(|s|, i requires 0 <= i < |s| => Lower(s[i]))
  }

  /** `needle` occurs in `hay` at some position. */
  predicate Contains(hay: string, needle: string)
    decreases |hay|
  {
    StartsWith(hay, needle) || (hay != [] && Contains(hay[1..], needle))
  }

  /** `icontains`: a case-insensitive substring match. */
  predicate ContainsIgnoringCase(hay: string, needle: string) {
    Contains(LowerString(hay), LowerString(needle))
  }

  /** The entries one autocompletion may offer: all of them for staff, the
      requester's own otherwise; narrowed, when something is typed, to the
      key it parses to, or else to titles and ball names containing it. */
  predicate Suggestable(store: Store, k: nat, ballName: nat -> string, isStaff: bool, player: nat, current: string)
    requires k in store
  {
    && (isStaff || store[k].artist == player)
    && (current != [] ==>
         match ParseEntryId(current)
         case Some(v) => k == v
         case None =>
           ContainsIgnoringCase(store[k].title, current)
           || ContainsIgnoringCase(ballName(store[k].ball), current))
  }

  function SuggestableIds(store: Store, ballName: nat -> string, isStaff: bool, player: nat, current: string): set<nat> {
    set k | k in store && Suggestable(store, k, ballName, isStaff, player, current)
  }

  const AutocompleteLimit: nat := 25

  /** The entry-id autocompletion: at most 25 suggestable entries, newest
      first (the entries' default ordering), each offered as its key in hex,
      which the commands parse back to that very key. */
  method Autocomplete(store: Store, ballName: nat -> string, isStaff: bool, player: nat, current: string)
    returns (ids: seq<nat>, values: seq<string>)
    ensures |values| == |ids| == Min(AutocompleteLimit, |SuggestableIds(store, ballName, isStaff, player, current)|)
    ensures forall i :: 0 <= i < |ids| ==>
      ids[i] in store && Suggestable(store, ids[i], ballName, isStaff, player, current)
    ensures forall i :: 0 <= i < |ids| ==> isStaff || store[ids[i]].artist == player
    ensures forall i :: 0 <= i < |ids| ==> values[i] == FormatHex(ids[i])
    ensures forall i :: 0 <= i < |ids| ==> ParseEntryId(values[i]) == Some(ids[i])
    ensures forall i, j :: 0 <= i < j < |ids| ==> ids[i] != ids[j] && values[i] != values[j]
    ensures OrderedByCreation(store, ids, true)
    ensures forall k, i :: (k in SuggestableIds(store, ballName, isStaff, player, current) && k !in ids
      && 0 <= i < |ids|) ==> store[ids[i]].createdAt >= store[k].createdAt
  {
    ids := SelectOrdered(store, SuggestableIds(store, ballName, isStaff, player, current), true, AutocompleteLimit);
    values := [];
    for i := 0 to |ids|
      invariant |values| == i
      invariant forall j :: 0 <= j < i ==> values[j] == FormatHex(ids[j])
      invariant forall j :: 0 <= j < i ==> ParseEntryId(values[j]) == Some(ids[j])
    {
      ParseFormatRoundTrip(ids[i]);
      values := values + [FormatHex(ids[i])];
    }
    forall i, j | 0 <= i < j < |ids|
      ensures values[i] != values[j]
    {
      FormatInjective(ids[i], ids[j]);
    }
  }
}
