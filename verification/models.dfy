/** The art-submission data model: the status enumeration, the singleton
    settings record, the art entry and its two moderation transitions. */
module ArtModels {
  import opened Basics

  /** The three moderation states of an entry. */
  datatype Status = Pending | Approved | Rejected

  /** The text stored in the status column for each state. */
  function StatusCode(s: Status): string {
    match s
    case Pending => "pending"
    case Approved => "approved"
    case Rejected => "rejected"
  }

  /** Reads a status column back; any text other than the three codes is not a status. */
  function StatusFromCode(code: string): (r: Option<Status>)
    ensures r.Some? ==> StatusCode(r.value) == code
    ensures r.None? ==> code != "pending" && code != "approved" && code != "rejected"
  {
    if code == "pending" then Some(Pending)
    else if code == "approved" then Some(Approved)
    else if code == "rejected" then Some(Rejected)
    else None
  }

  /** Every status survives being written to and read from its column, and
      the three codes are distinct. */
  lemma StatusCodeRoundTrip(s: Status, t: Status)
    ensures StatusFromCode(StatusCode(s)) == Some(s)
    ensures StatusCode(s) == StatusCode(t) ==> s == t
  {
  }

  // ----- Settings -----

  /** The global configuration of the feature. */
  datatype Settings = Settings(enabled: bool, requireApproval: bool, maxSubmissionsPerDay: nat)

  /** Column defaults of a freshly created settings row. */
  const DefaultSettings: Settings := Settings(true, true, 5)

  /** The fixed primary key of the one settings row. */
  const SoloKey: nat := 1

  /** The settings table, keyed by primary key. */
  type SettingsTable = map<nat, Settings>

  /** Returns the settings row with key 1, inserting it with the column
      defaults when it is absent; the table is returned with the row. */
  function GetSolo(t: SettingsTable): (r: (SettingsTable, Settings))
    ensures SoloKey in r.0 && r.0[SoloKey] == r.1
    ensures r.0.Keys == t.Keys + {SoloKey}
    ensures forall k :: k in t ==> r.0[k] == t[k]
    ensures SoloKey !in t ==> r.1 == DefaultSettings
  {
    if SoloKey in t then (t, t[SoloKey])
    else (t[SoloKey := DefaultSettings], DefaultSettings)
  }

  /** A second read creates nothing and returns the same record as the first. */
  lemma GetSoloIdempotent(t: SettingsTable)
    ensures GetSolo(GetSolo(t).0) == GetSolo(t)
    ensures SoloKey in t ==> GetSolo(t).0 == t
  {
  }

  // ----- Entries -----

  /** One art submission. Players, balls and reviewers are referred to by
      primary key; timestamps are abstract clock readings. */
  datatype Entry = Entry(
    ball: nat,
    artist: nat,
    title: string,
    description: string,
    mediaUrl: string,
    status: Status,
    rejectionReason: string,
    reviewedBy: Option<nat>,
    reviewedAt: Option<nat>,
    enabled: bool,
    createdAt: nat,
    updatedAt: nat)

  /** The entry table, keyed by primary key. */
  type Store = map<nat, Entry>

  /** The status column's default. */
  const DefaultStatus: Status := Pending

  /** Reviewer and review time are recorded together or not at all. */
  predicate WellFormed(e: Entry) {
    e.reviewedBy.Some? <==> e.reviewedAt.Some?
  }

  predicate StoreWellFormed(store: Store) {
    forall k :: k in store ==> WellFormed(store[k])
  }

  /** A row as the store creates it at time `now`: the given content, the
      given status or else the column default, and the defaults of every
      other column. */
  function NewEntry(ball: nat, artist: nat, title: string, description: string,
                    mediaUrl: string, status: Option<Status>, now: nat): (e: Entry)
    ensures e.ball == ball && e.artist == artist
    ensures status.Some? ==> e.status == status.value
    ensures status.None? ==> e.status == Pending
    ensures e.title == title && e.description == description && e.mediaUrl == mediaUrl
    ensures e.enabled && e.rejectionReason == ""
    ensures e.reviewedBy.None? && e.reviewedAt.None? && WellFormed(e)
    ensures e.createdAt == now && e.updatedAt == now
  {
    var s := if status.Some? then status.value else DefaultStatus;
    Entry(ball, artist, title, description, mediaUrl, s, "", None, None, true, now, now)
  }

  /** The columns a moderation transition must leave alone. */
  predicate SameContent(e: Entry, f: Entry) {
    && e.ball == f.ball
    && e.artist == f.artist
    && e.title == f.title
    && e.description == f.description
    && e.mediaUrl == f.mediaUrl
    && e.enabled == f.enabled
    && e.createdAt == f.createdAt
    && e.updatedAt == f.updatedAt
  }

  /** The four moderation columns record `status` given by `reviewer` at `at`
      with the given rejection reason. */
  predicate Moderated(e: Entry, status: Status, reviewer: nat, at: nat, reason: string) {
    && e.status == status
    && e.reviewedBy == Some(reviewer)
    && e.reviewedAt == Some(at)
    && e.rejectionReason == reason
  }

  /** Approves the entry at time `now`, whatever its prior status. Only the
      four moderation columns are saved, so `updatedAt` is not refreshed. */
  function Approve(e: Entry, reviewer: nat, now: nat): (r: Entry)
    ensures Moderated(r, Approved, reviewer, now, "")
    ensures SameContent(e, r) && WellFormed(r)
  {
    e.(status := Approved, reviewedBy := Some(reviewer), reviewedAt := Some(now), rejectionReason := "")
  }

  /** Rejects the entry at time `now` with `reason` (the empty string when no
      reason is given), whatever its prior status. */
  function Reject(e: Entry, reviewer: nat, now: nat, reason: string := ""): (r: Entry)
    ensures Moderated(r, Rejected, reviewer, now, reason)
    ensures SameContent(e, r) && WellFormed(r)
  {
    e.(status := Rejected, reviewedBy := Some(reviewer), reviewedAt := Some(now), rejectionReason := reason)
  }

  /** The two transitions change at most the four moderation columns: every
      entry is its result with those four columns put back. */
  lemma TransitionsFrame(e: Entry, reviewer: nat, now: nat, reason: string)
    ensures var a := Approve(e, reviewer, now);
      a.(status := e.status, reviewedBy := e.reviewedBy, reviewedAt := e.reviewedAt,
         rejectionReason := e.rejectionReason) == e
    ensures var j := Reject(e, reviewer, now, reason);
      j.(status := e.status, reviewedBy := e.reviewedBy, reviewedAt := e.reviewedAt,
         rejectionReason := e.rejectionReason) == e
  {
  }

  /** No status is terminal: either decision can be revised, and the latest
      decision wipes every trace of the earlier one. */
  lemma ReModeration(e: Entry, r1: nat, t1: nat, r2: nat, t2: nat, reason1: string, reason2: string)
    ensures Approve(Reject(e, r1, t1, reason1), r2, t2) == Approve(e, r2, t2)
    ensures Reject(Approve(e, r1, t1), r2, t2, reason2) == Reject(e, r2, t2, reason2)
    ensures Approve(Approve(e, r1, t1), r2, t2) == Approve(e, r2, t2)
    ensures Reject(Reject(e, r1, t1, reason1), r2, t2, reason2) == Reject(e, r2, t2, reason2)
  {
  }
}
