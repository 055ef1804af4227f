# Art entry moderation — a Dafny model

This project models the moderation workflow of the BallsDex art package.
Players submit artwork links for a ball. Staff approve or reject them. Approved,
enabled entries are shown to everyone. The model covers five parts:

- the entry status machine and the singleton settings record (`ArtModels`, models.py);
- the decision logic of the chat commands (`ArtCog`, cog.py). This covers the submission gate, the public listing, the per-entry permission rule, the review commands with their "already in that state" guards, the pending list and the entry-id autocompletion;
- the hexadecimal entry-id codec used by those commands (`HexId`);
- the ordered, limited listing query the commands share (`EntryQuery`);
- the back-office rules (`ArtAdmin`, admin.py). These are the bulk approve/reject actions, the single-row guard on settings, the title placeholder and the status badge colours.

Everything is a pure function or a method over immutable values. The entry
table is a `map<nat, Entry>` keyed by primary key, and the settings table is a
`map<nat, Settings>`. The clock readings (`now`, the start of the day) are
`nat` parameters. So are the staff flag and the player, ball and reviewer keys.
Each command returns the tables it leaves behind and a typed outcome
(`Result`) in place of the chat message it would send.

Behaviours of the code that differ from what one might expect, all followed by the model:

- `approve`/`reject` save only the four moderation columns. So `updatedAt` is not refreshed by a transition.
- Only `submit` and `view` consult the settings' `enabled` switch. `info` and the review commands do not.
- An id is read after stripping whitespace and then *every* leading `#`, not one optional `#`.
- The round trip is proved for every natural number, not only for keys below 2^63.

## Model

| member | source | states |
|---|---|---|
| ArtModels.StatusCodeRoundTrip | art/models.py:10-15 | each of the three statuses reads back from its stored code, and the codes are distinct |
| ArtModels.GetSolo | art/models.py:37-45 | the result is the row with key 1; existing rows are never overwritten; the table gains key 1 and nothing else; a created row has the defaults enabled, approval required, 5 per day |
| ArtModels.GetSoloIdempotent | art/models.py:44-45 | a second read creates nothing and returns the same record; with the row present the table is untouched |
| ArtModels.NewEntry | art/models.py:82-113 | a new row carries the given content and the given status or else pending, is enabled, has no reviewer, no review time and an empty rejection reason, and is created and updated at `now` |
| ArtModels.Approve | art/models.py:131-137 | whatever the prior status: status approved, reviewer and review time recorded together, reason cleared; ball, artist, title, description, link, enabled flag and both timestamps unchanged |
| ArtModels.Reject | art/models.py:139-145 | whatever the prior status: status rejected, reviewer and review time recorded together, reason stored (empty by default); all content columns unchanged |
| ArtModels.TransitionsFrame | art/models.py:131-145 | putting back the four moderation columns of either result gives the original entry, so nothing else changes |
| ArtModels.ReModeration | art/models.py:131-145 | no state is terminal: approve after reject equals a direct approve (reason cleared), reject after approve equals a direct reject, and the latest decision fully replaces the earlier one |
| HexId.ParseEntryIdAccepts | art/package/cog.py:238-239 | an id text is accepted exactly when, after stripping whitespace, every leading '#' and whitespace again, it is a non-empty string of hex digits of either case, and it then reads as that base-16 number; an empty remainder or any non-hex character is refused |
| HexId.ZzzIsMalformed | art/package/cog.py:238-242 | the text "zzz" is not an id |
| HexId.FormatHex | art/package/cog.py:75 | the display form is non-empty upper-case hex with no prefix and no leading zero, and it starts with '0' only for key 0 |
| HexId.ParseFormatted | art/package/cog.py:237-239 | a displayed id reads back to its key with any number of leading '#' and any whitespace around it |
| HexId.ParseFormatRoundTrip | art/package/cog.py:153 | parse(format(n)) = n and parse("#" + format(n)) = n for every key n |
| HexId.FormatInjective | art/package/cog.py:75 | distinct keys are displayed as distinct ids |
| HexId.FormatOfCanonical | art/package/cog.py:75 | every canonical upper-case hex string is the display form of its value, so the display form is a bijection onto canonical strings |
| EntryQuery.SelectOrdered | art/package/cog.py:176-184 | filter, order and slice: distinct matching keys in strict order, non-increasing (or non-decreasing) creation time, length min(limit, matches), and no unlisted match ordered before a listed one |
| ArtCog.ValidMediaIff | art/package/cog.py:124 | the link check accepts exactly the strings that are "http://" or "https://" followed by anything |
| ArtCog.InitialStatus | art/package/cog.py:138 | a new entry starts pending exactly when approval is required, and never rejected |
| ArtCog.Submit | art/package/cog.py:102-139 | checks in order: switch, then quota (reporting the cap), then link prefix; each failure leaves the entries untouched; success adds exactly one entry under the fresh key, changes no other entry, and stores empty strings for a missing title or description |
| ArtCog.SubmitCounts | art/package/cog.py:110-113 | a successful submission raises the submitter's count for the day by one and leaves every other player's count alone |
| ArtCog.QuotaSequence | art/package/cog.py:110-121 | in a day of sequential submissions, the i-th succeeds exactly when the earlier count plus i is below the cap; every other one fails with the cap reported |
| ArtCog.QuotaCap | art/package/cog.py:115-121 | with cap N and no submission yet that day, N submissions succeed and the next fails with the cap N (so with N = 0 the first one fails) |
| ArtCog.SubmitPreservesWellFormed | art/package/cog.py:132-139 | a submission keeps every entry's reviewer and review time both set or both unset |
| ArtCog.View | art/package/cog.py:170-184 | with viewing disabled: an error; otherwise only approved, enabled entries of the ball, newest first, min(10, visible) of them with none left out that is newer than a listed one; entries never change |
| ArtCog.Info | art/package/cog.py:237-260 | a malformed id is InvalidId, an unknown key NotFound, and an existing entry is Forbidden exactly when the requester is not staff, the entry is not approved and the requester is not its artist; and every entry the requester may see is returned as stored |
| ArtCog.InvalidIdBeforeLookup | art/package/cog.py:237-245 | a malformed id gives InvalidId whatever the store holds |
| ArtCog.ListedEntriesOpen | art/package/cog.py:258 | every entry the public listing can show opens for any requester through the "#"+hex id it is displayed with |
| ArtCog.UnapprovedIsPrivate | art/package/cog.py:258 | a pending or rejected entry is Forbidden to a non-staff requester who is not its artist |
| ArtCog.ReviewApprove | art/package/cog.py:365-390 | non-staff is refused; a malformed id is refused; an unknown key is NotFound with the store unchanged; already-approved is refused exactly when the entry exists and is approved; every refusal leaves the store unchanged; an existing entry that is not approved is approved, and only that entry changes |
| ArtCog.ReviewReject | art/package/cog.py:430-455 | as review approve: unknown key NotFound, the already-rejected guard, and every existing entry that is not rejected is rejected with the given reason (empty when none is given), only that entry changing |
| ArtCog.ReviewTwice | art/package/cog.py:385-387 | reviewing a pending entry succeeds, and repeating the same decision is refused without changing the store |
| ArtCog.ReviewReverses | art/package/cog.py:450-455 | an approved entry can be rejected and a rejected one approved (reason cleared) through the commands |
| ArtCog.ReviewPreservesWellFormed | art/package/cog.py:389-390 | the review commands keep reviewer and review time both set or both unset |
| ArtCog.ReviewList | art/package/cog.py:318-329 | non-staff is refused; otherwise only pending entries, oldest first, min(25, pending) of them with none left out that is older than a listed one |
| ArtCog.Autocomplete | art/package/cog.py:45-77 | min(25, suggestable) distinct suggestions; non-staff see only their own entries; a typed hex id narrows to that key; newest first with no unlisted suggestable entry newer than a listed one; each value is the key in upper-case hex, values are distinct, and each parses back to its entry's key |
| ArtAdmin.HasAddPermission | art/admin.py:34-38 | adding a settings row is offered only while the table is empty, and then exactly when the framework allows it |
| ArtAdmin.AddKeepsSingleRow | art/admin.py:34-38 | an add through the guard never takes the table past one row, and after a settings read no add is offered |
| ArtAdmin.TitleDisplay | art/admin.py:99-102 | an empty title is shown as "Untitled", any other title as itself |
| ArtAdmin.StatusBadge | art/admin.py:104-112 | the badge is gray exactly for a column value that is not one of the three status codes |
| ArtAdmin.BadgeColours | art/admin.py:107-112 | pending is orange, approved green, rejected red, and the three colours are distinct |
| ArtAdmin.BulkDecide | art/admin.py:141-146 | the loop's outcome equals the whole-table definition: every pending selected entry decided, every other entry unchanged, and the count is the number of pending selected entries |
| ArtAdmin.ApproveSelected | art/admin.py:130-146 | without a reviewer nothing changes and an error is reported; otherwise exactly the pending selected entries are approved, already approved or rejected ones are left as they were, and the count is the number approved |
| ArtAdmin.RejectSelected | art/admin.py:148-164 | as bulk approve, rejecting with the reason "Bulk rejected via admin panel" |
| ArtAdmin.BulkLeavesNothingPending | art/admin.py:142-146 | after a bulk action no selected entry is pending, and well-formedness is kept |

## Left out

- Chat I/O. This covers embeds, deferred replies, `fetch_user`, direct-message notifications and the failures they swallow, truncation of fields for display, the image-extension heuristic, the 100-character choice names and the 20-line cap of the pending list's text. These are presentation and network plumbing.
- The ORM. That means `sync_to_async`, `aget_or_create`, `save(update_fields=...)`, transactions and the concurrent first-access race of `get_solo`. The tables are plain maps.
- Key assignment. The key of a new entry is a parameter `newId`, required to be absent from the table. The key of a settings row added in the back office is a parameter too. The store hands both out.
- Ties in creation time. The store lists equal-time entries in no fixed order. `EntryQuery.SelectOrdered` breaks ties by key, and its contract about creation time holds for every tie order.
- Clock and time zone. `now` and the start of the day are parameters, and computing midnight from the clock is not modelled. Submissions are sequential, so the count-then-insert race that can exceed the cap by one is not modelled.
- `URLValidator`, HTML rendering (`format_html`, `media_preview`) and the column length limits (256 for titles, 2048 for links). These belong to the framework. Only the prefix check is modelled.
- HexId.ParseEntryId: accepts only non-empty strings of ASCII hex digits after stripping. Python's `int(s, 16)` also accepts a sign, a "0x" prefix, underscores between digits and non-ASCII digits; the model rejects those inputs.
- ArtCog.Autocomplete: the case-insensitive text match folds ASCII letters only. Other Unicode case folding is not modelled.
- ArtAdmin.BulkDecide: one bulk action stamps every entry with the single clock reading `now`; the source reads the clock again for each entry, so its review times may differ by the time the loop takes.
- Deleting players, balls or entries, which cascades or nulls the reviewer. This subsystem never deletes. Arbitrary field edits through the back-office change form are not modelled either.
- Staff resolution, player creation from a chat user and ball lookup. These belong to the host game and enter as parameters. The review commands always resolve a reviewer, because `ensure_player` creates one.
- `__str__` of the models. It is display text, and its title placeholder follows the same rule as `ArtAdmin.TitleDisplay`.
- The generated migration, the app config and the package loader. They hold schema and registration only.
