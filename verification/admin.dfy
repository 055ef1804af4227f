/** The back-office rules: the settings table may only gain a row while it is
    empty, bulk moderation acts on the pending entries of a selection only,
    and the list view shows a title placeholder and a colour per status. */
module ArtAdmin {
  import opened Basics
  import opened ArtModels

  // ----- settings -----

  /** Whether the back office offers to add a settings row: never once a row
      exists, otherwise whatever the framework's own permission check says. */
  function HasAddPermission(t: SettingsTable, frameworkAllows: bool): (r: bool)
    ensures r ==> t == map[]
    ensures t == map[] ==> r == frameworkAllows
  {
    if |t| > 0 then false else frameworkAllows
  }

  /** A row added through the back office under the key the store assigns,
      when adding is permitted. */
  function AdminAddSettings(t: SettingsTable, key: nat, s: Settings, frameworkAllows: bool): SettingsTable {
    if HasAddPermission(t, frameworkAllows) then t[key := s] else t
  }

  /** The add guard never lets the table grow past one row, and once the
      settings have been read the guard refuses every add. */
  lemma AddKeepsSingleRow(t: SettingsTable, key: nat, s: Settings, frameworkAllows: bool)
    requires |t| <= 1
    ensures |AdminAddSettings(t, key, s, frameworkAllows)| <= 1
    ensures !HasAddPermission(GetSolo(t).0, frameworkAllows)
  {
  }

  // ----- list display -----

  /** The title column: the title, or "Untitled" when it is blank. */
  function TitleDisplay(title: string): (r: string)
    ensures r != ""
    ensures title == "" ==> r == "Untitled"
    ensures title != "" ==> r == title
  {
    if title == "" then "Untitled" else title
  }

  /** The badge colour for a raw status column value; a value that is not one
      of the three codes is shown in gray. */
  function StatusBadge(code: string): (color: string)
    ensures color == "gray" <==> StatusFromCode(code).None?
  {
    match StatusFromCode(code)
    case Some(Pending) => "orange"
    case Some(Approved) => "green"
    case Some(Rejected) => "red"
    case None => "gray"
  }

  /** Each status has its own colour, and none of them is gray. */
  lemma BadgeColours(s: Status, t: Status)
    ensures StatusBadge(StatusCode(s)) == (match s case Pending => "orange" case Approved => "green" case Rejected => "red")
    ensures StatusBadge(StatusCode(s)) == StatusBadge(StatusCode(t)) ==> s == t
  {
  }

  // ----- bulk actions -----

  /** Which transition a bulk action applies. */
  datatype Decision = ApproveAll | RejectAll(reason: string)

  /** The reason every bulk rejection records. */
  const BulkRejectReason: string := "Bulk rejected via admin panel"

  function Decide(d: Decision, e: Entry, reviewer: nat, now: nat): Entry {
    match d
    case ApproveAll => Approve(e, reviewer, now)
    case RejectAll(reason) => Reject(e, reviewer, now, reason)
  }

  /** The keys of the selection that exist and are still pending. */
  function PendingSelected(store: Store, selection: set<nat>): set<nat> {
    set k | k in store && k in selection && store[k].status == Pending
  }

  /** The table after a bulk action, stated at once: every pending selected
      entry decided, every other entry as it was. */
  function BulkResult(store: Store, selection: set<nat>, d: Decision, reviewer: nat, now: nat): Store {
    map k | k in store :: if k in PendingSelected(store, selection) then Decide(d, store[k], reviewer, now) else store[k]
  }

  /** Applies the decision to every pending entry of the selection, one after
      another, and counts them; the outcome is the table stated by
      `BulkResult`. */
  method BulkDecide(store: Store, selection: set<nat>, d: Decision, reviewer: nat, now: nat)
    returns (store': Store, count: nat)
    ensures store' == BulkResult(store, selection, d, reviewer, now)
    ensures store'.Keys == store.Keys
    ensures forall k :: k in store && k in PendingSelected(store, selection) ==>
      store'[k] == Decide(d, store[k], reviewer, now)
    ensures forall k :: k in store && k !in PendingSelected(store, selection) ==> store'[k] == store[k]
    ensures count == |PendingSelected(store, selection)|
  {
    var todo := PendingSelected(store, selection);
    store' := store;
    count := 0;
    while todo != {}
      invariant todo <= PendingSelected(store, selection)
      invariant store'.Keys == store.Keys
      invariant forall k :: k in store && k in PendingSelected(store, selection) && k !in todo ==>
        store'[k] == Decide(d, store[k], reviewer, now)
      invariant forall k :: k in store && (k !in PendingSelected(store, selection) || k in todo) ==>
        store'[k] == store[k]
      invariant count + |todo| == |PendingSelected(store, selection)|
      decreases |todo|
    {
      var k :| k in todo;
      store' := store'[k := Decide(d, store'[k], reviewer, now)];
      count := count + 1;
      todo := todo - {k};
    }
    assert store'.Keys == BulkResult(store, selection, d, reviewer, now).Keys;
  }

  datatype AdminError = ReviewerNotFound

  /** The bulk approve action. Without a resolvable reviewer nothing
      changes; otherwise exactly the pending entries of the selection are
      approved by that reviewer, every other entry is left as it was, and
      the reported count is the number approved. */
  method ApproveSelected(store: Store, selection: set<nat>, reviewer: Option<nat>, now: nat)
    returns (store': Store, r: Result<nat, AdminError>)
    ensures reviewer.None? ==> store' == store && r == Err(ReviewerNotFound)
    ensures reviewer.Some? ==> r.Ok? && r.value == |PendingSelected(store, selection)|
    ensures store'.Keys == store.Keys
    ensures forall k :: k in store ==>
      if reviewer.Some? && k in selection && store[k].status == Pending
      then store'[k] == Approve(store[k], reviewer.value, now)
      else store'[k] == store[k]
  {
    if reviewer.None? {
      return store, Err(ReviewerNotFound);
    }
    var count;
    store', count := BulkDecide(store, selection, ApproveAll, reviewer.value, now);
    r := Ok(count);
  }

  /** The bulk reject action: as bulk approve, rejecting with the fixed
      bulk reason. */
  method RejectSelected(store: Store, selection: set<nat>, reviewer: Option<nat>, now: nat)
    returns (store': Store, r: Result<nat, AdminError>)
    ensures reviewer.None? ==> store' == store && r == Err(ReviewerNotFound)
    ensures reviewer.Some? ==> r.Ok? && r.value == |PendingSelected(store, selection)|
    ensures store'.Keys == store.Keys
    ensures forall k :: k in store ==>
      if reviewer.Some? && k in selection && store[k].status == Pending
      then store'[k] == Reject(store[k], reviewer.value, now, BulkRejectReason)
      else store'[k] == store[k]
  {
    if reviewer.None? {
      return store, Err(ReviewerNotFound);
    }
    var count;
    store', count := BulkDecide(store, selection, RejectAll(BulkRejectReason), reviewer.value, now);
    r := Ok(count);
  }

  /** After a bulk action with a known reviewer no selected entry is still
      pending, and reviewer and review time stay together. */
  lemma BulkLeavesNothingPending(store: Store, selection: set<nat>, d: Decision, reviewer: nat, now: nat)
    ensures forall k :: k in store && k in selection ==>
      BulkResult(store, selection, d, reviewer, now)[k].status != Pending
    ensures StoreWellFormed(store) ==> StoreWellFormed(BulkResult(store, selection, d, reviewer, now))
  {
  }
}
