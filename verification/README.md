# Sæhrimnir: a model of incremental sync, with proofs

Sæhrimnir is a mock mail server. One in-memory fixture is read and written by JMAP, IMAP and Gmail
surfaces, and every incremental-sync answer they give is computed from two small stateful
structures: a change log per account and an append-only UID ledger per mailbox. This project models
those two structures, the commands that edit them and the algorithms around them, and proves that
clients which follow the answers end up with the server's state, or says exactly when they do not.

## How it is organised

- The specification level is plain values. `Stores.dfy` has the store (emails, mailboxes, ledger)
  and every command as a list of edits folded over it; `ChangeLog.dfy` has the answer owed for a
  token as a function of an unbounded history; `Splits.dfy` has each account's share of a mutation.
  `Replay.dfy` puts them together as a server that steps by commands; `Effects.dfy` says what each
  command means for each email, `Removals.dfy` which slots EXPUNGE and MOVE empty, `SpentSlots.dfy`
  that no slot runs ahead of the id mint. On the
  client's side, `Caches.dfy` says what a JMAP cache is worth after a delta, `Clients.dfy` what an
  IMAP client's list is worth after EXPUNGE lines and IDLE, `Resyncs.dfy` what its cache of a mailbox
  is worth after a quick resynchronisation. Whole runs are sequences of commands, because the server
  holds the fixture's write lock for the length of each one: the seven mail commands, and one more
  kind, `Elsewhere`, for any recorded mutation that leaves emails alone, such as a RENAME.
- The imperative level has the source's shape. `ChangeLogs.ChangeLog` and `Fixtures.Fixture` are
  classes whose methods edit fields in place; `JmapMail.dfy`, `ImapMail.dfy`, `ImapMailboxes.dfy`
  and `JmapContacts.dfy` hold the commands with their loops. Every method is proved equal to the
  specification, so that what is proved about runs holds of the objects. `Sessions.dfy` closes the
  gap end to end: serve any list of commands, then resynchronise by token, by MODSEQ, by QRESYNC or
  by IDLE. `Examples.dfy` holds the concrete inputs named in the next section.
- Self-contained algorithms stand in their own files: `Dominance`, `Patches`, `Flags`, `UidSets`,
  `Base64`, `Paging`, `Durations`, `Trees` and `MailboxTrees`, `Tokens`, `Decimal`, `Text`, `Sorting`.

## Where the code and its own words disagree

The model follows the code. Each case below has a lemma that says exactly when it happens and one
that shows it at a concrete input.

- An id created, updated and destroyed in one window is promised to be omitted; it survives in
  `updated` (`Dominance.CancelledIdIsOmittedIffNeverUpdated`, `Examples.CancelledYetUpdated`).
- A change evicted from the ring is called safe to skip in `CHANGEDSINCE`; a client can miss it
  (`Agreement.ChangedSinceMissesOnlyEvicted`, `Agreement.EvictedChangeIsSkipped`).
- A bare seed is said to have counter 0. It has, exactly when it does not end in a dot and a positive
  64-bit number (`Tokens.BareSeedReadsZeroIff`); the seed `v1.7` reads as 7
  (`Tokens.BareSeedCanReadAsACounter`). The code never meets the case: its only call
  (src/fixture.rs:592) passes a token that `advance` minted, and those read back for every seed.
- An email is said to be in a mailbox at most once; `UID MOVE` assigns a slot without looking, and
  gives a message that was already in the target a second live UID (`Runs.MoveKeepsLedgerIff`,
  `Examples.MoveDoubles`). The loader does not refuse a repeated mailbox either
  (`Runs.LoadEstablishesLedgerIff`, `Examples.LoadDoubles`). Destroying such a message leaves a live
  slot behind, so a QRESYNC client keeps it (`Resyncs.ResyncTheorem`, `Examples.SlotOutlivesEmail`).
- EXPUNGE numbers are positions among all live slots of the mailbox (src/imap.rs:1859-1875,
  2011-2025), but SELECT and FETCH show an account only its own emails (src/imap.rs:2271-2293). No
  check keeps an email of another account out of a mailbox (src/jmap.rs:1497-1504, 1697-1716); where
  one lies before a victim, the client strikes the wrong line or none (`Clients.ExpungeReplayIff`,
  `Clients.MoveReplayIff`, `Examples.HiddenSlotExample`).
- EXPUNGE and MOVE announce the place of the slot that was named, but empty the first live slot of its
  email (src/fixture.rs:1068-1077), and an email that goes altogether is announced only where it was
  named. Where a message holds two live slots, the client keeps the wrong one, or one too many, even
  when nothing is hidden (`Clients.ExpungeReplayIff`, `Clients.MoveReplayIff`,
  `Clients.NothingHiddenReplaysIff`, `Examples.DoubledReplay`).
- `RENAME` accepts a new parent below the renamed mailbox and so makes a cycle, on which the walk
  of a LIST path would not end (`MailboxTrees.RenameAcyclicIff`, `MailboxTrees.RenameUnderItself`).
- `RENAME` to a name under INBOX lists the mailbox under the inbox's stored name, which need not be
  INBOX, and `RENAME` of the INBOX leaves it listed as INBOX (`MailboxTrees.RenameAnswersIff`,
  `MailboxTrees.RenameUnderInbox`).
- `UID STORE` numbers messages by position, not by ledger slot (`StoreNumbers.CoherentIff`,
  `StoreNumbers.RetiredSlotExample`, `Examples.CopiedOlder`), nor by what the client is shown
  (`StoreNumbers.ShownCoherentIff`).
- The per-folder union of contact deltas reports a dead contact as created or updated on an account
  with two folders (`ContactDeltas.SeveralFoldersAgreeIff`, `Examples.DeadContactReported`).
- Falling back to the primary account for an unresolved id is called unreachable; one `Email/set`
  that creates and destroys an email of a secondary account reaches it, and misleads the clients of
  the primary account and of no other (`Replay.CommandReplaysAtIff`, `Replay.ReplayTheorem`,
  `Examples.OrphanMisroutes`).
- The seed token resolves for ever, but after an eviction its delta is only what is left
  (`Replay.SeedReplayIff`, `Examples.SeedForgets`).

## Model

| member | source | states |
|---|---|---|
| Sessions.CatchUp | src/fixture.rs:602-637 | End to end: a client notes a state token, any run of commands is served, `Email/changes` from that token is refused exactly when the ring let go of the state, and otherwise (and, for the seed, while nothing was evicted) a cache that mirrored the account mirrors it again after fetching what is named, and old ids plus created minus destroyed are the live ids exactly when the run is fair to the account, as in `Replay.ReplayTheorem` |
| Sessions.Refetch | src/imap.rs:1517-1549 | End to end, over any run: fetching with `CHANGEDSINCE` the HIGHESTMODSEQ noted before it returns exactly the asked-for messages that `Email/changes` reports as created or updated |
| Sessions.Resync | src/imap.rs:1022-1041 | End to end, over any run: a client that knew the mailbox strikes out what the printed `VANISHED (EARLIER)` line says when parsed, takes over the rows of one `FETCH 1:* (CHANGEDSINCE)`, and then knows the mailbox as it is now exactly when no slot it was shown outlived its email; always under the ledger law |
| Sessions.WakeUp | src/imap.rs:1371-1408 | End to end, over any run: applying the IDLE lines by position to what was shown leaves a prefix of what is shown now, RECENT counts the rest, and EXISTS, sent exactly when there is a rest, counts both |
| Sessions.Serve | src/fixture.rs:1195-1201 | Serving any list of commands takes the real fixture, store and per-account logs, exactly where the abstract run goes |
| Caches.CacheTheorem | src/fixture.rs:1563-1576 | Cache coherence over any run: a client that mirrored the account, drops the destroyed and fetches the created and updated, mirrors it again, contents included |
| Caches.RunReports | src/fixture.rs:1214-1245 | Every email whose content differs between the ends of a run is named in its account's history |
| Caches.ExecRecords | src/jmap.rs:1421-1428 | Every email a command leaves with another content is recorded as updated |
| Replay.ReplayTheorem | src/fixture.rs:602-637 | Over any run and for every token the ring resolves (the seed while nothing is evicted), (live ids at the token + created) - destroyed equals the account's live ids exactly when the account is not the primary one or no call created and destroyed the same email of another account |
| Replay.SeedReplayIff | src/fixture.rs:573-578 | After evictions, over any run fair to the account (as in `Replay.ReplayTheorem`), replay from the seed is right exactly when the evicted transitions left no lasting effect |
| Replay.CommandReplaysAtIff | src/fixture.rs:1312-1318 | One command's share replays for an account exactly when it is not the primary one or the call does not create and destroy the same email outside the primary account |
| Replay.CommandReplaysIff | src/jmap.rs:1408-1459 | So it replays for every account exactly when the call does not; the condition is read off the call |
| Replay.ChangedSinceOnRuns | src/fixture.rs:586-596 | Over any run, a live email passes `CHANGEDSINCE k+1` exactly when the email delta from counter k names it as created or updated |
| Replay.RunTells | src/fixture.rs:1214-1245 | Over any run, what was recorded for an account traces its live ids: what lives was live or is listed as created and is not listed as destroyed, what died is listed, created ids are fresh; and nothing listed as created is left over exactly when the run is fair to the account |
| Replay.EmailSetPhases | src/jmap.rs:1363-1462 | `Email/set` is creates, then updates, then one batch of destroys |
| ChangeLogs.RingChain | src/fixture.rs:534-578 | Every reachable ring: as long as the counter up to 256 transitions, the i-th retained token has counter (counter - len + 1 + i), each starts where its predecessor ended, the last ends at the current state |
| ChangeLogs.ChangeLog.constructor | src/fixture.rs:549-556 | A new log has the seed as its state and an empty history |
| ChangeLogs.ChangeLog.Advance | src/fixture.rs:562-566 | The counter grows by one and the new token is the seed with that counter |
| ChangeLogs.ChangeLog.Push | src/fixture.rs:573-578 | A full ring loses its oldest transition and no other |
| ChangeLogs.ChangeLog.Record | src/fixture.rs:1233-1241 | One recorded mutation appends exactly that diff to the unbounded history and keeps the ring its tail |
| ChangeLogs.ChangeLog.ModseqForEmail | src/fixture.rs:586-596 | One more than the counter of the last retained transition that created or updated the email |
| ChangeLogs.ChangeLog.Walk | src/fixture.rs:602-637 | The string-token walk returns what the history owes: nothing at the current state, refusal for unknown or evicted tokens, otherwise the fold of every diff after the token |
| ChangeLogs.ChangeLog.DeltaSince | src/fixture.rs:602-637 | The same for the unfiltered delta |
| ChangeLogs.ChangeLog.DeltaSinceFilteredDestroys | src/fixture.rs:646-696 | The same, with only the tombstones whose recorded parent is the given one |
| ChangeLogs.ChangeLog.GmailHistorySince | src/fixture.rs:1776-1821 | The ring walk by counter returns the history records owed from a reported id |
| ChangeLogs.DeltaCases | src/fixture.rs:606-613 | Which counters get the empty delta, a refusal, the whole ring, or the window after them |
| ChangeLogs.AnswerToToken | src/fixture.rs:602-637 | The text of counter n is answered as counter n, so no two counters are confused |
| ChangeLogs.LastTouch | src/fixture.rs:586-596 | The last counter at which an email was created or updated |
| Tokens.CounterOfMintedToken | src/fixture.rs:534-539 | `counter_of_state` inverts every token `advance` mints, also for seeds with dots |
| Tokens.TokenInjective | src/fixture.rs:562-566 | Different counters have different tokens |
| Tokens.BareSeedReadsZeroIff | src/fixture.rs:530-539 | The bare seed reads as 0 exactly when it does not end in a dot and a positive 64-bit number |
| Tokens.BareSeedCanReadAsACounter | src/fixture.rs:530-539 | The seed `v1.7` is such a seed and reads as 7 |
| Dominance.ApplyDominanceAndDedup | src/fixture.rs:1961-1989 | The in-place retains compute the fold of the three lists |
| Dominance.DedupPreservingOrder | src/fixture.rs:1991-2006 | The keep-mask dedup keeps the first occurrence of every id |
| Dominance.DominanceLaw | src/fixture.rs:1961-1989 | created' = C - D, destroyed' = D - C, updated' = U - (created' + destroyed'), duplicate-free, pairwise disjoint, in first-seen order |
| Dominance.CancelledIdIsOmittedIffNeverUpdated | src/fixture.rs:1123-1129 | An id created and destroyed in the window is omitted exactly when nothing updated it |
| Agreement.ChangedSinceAgreesWithDelta | src/imap.rs:1530-1548 | `CHANGEDSINCE` and the JMAP delta agree on every email not destroyed in the window |
| Agreement.ModseqBound | src/fixture.rs:750-756 | Every MODSEQ lies between 1 and HIGHESTMODSEQ |
| Agreement.GatherMeaning | src/fixture.rs:646-696 | What a walk collects for emails, mailboxes and contacts, list by list; a contact tombstone counts for a folder only where the parents were recorded alongside |
| Agreement.ChangedSinceMissesOnlyEvicted | src/fixture.rs:758-771 | A change since the client's HIGHESTMODSEQ goes unreported exactly when it and all later ones to that email were evicted |
| Agreement.EvictedChangeIsSkipped | src/fixture.rs:762-765 | A history of 257 transitions on which a client misses a change |
| Agreement.GmailRefinesTheWalk | src/fixture.rs:1762-1822 | `history.list` is unknown exactly when the token walk refuses; its record ids are consecutive; its lists are the ones the walk folds |
| Agreement.GmailFromTheSeed | src/fixture.rs:1776-1797 | From the seed the two agree until the first eviction |
| ContactDeltas.OneFolderAgrees | src/jmap_contacts.rs:416-438 | With one folder, the union equals the account-wide walk |
| ContactDeltas.SeveralFoldersAgreeIff | src/jmap_contacts.rs:416-438 | With several, it does exactly when no id destroyed in the window was also created or updated in it |
| ContactDeltas.AnswerShape | src/jmap_contacts.rs:426-443 | The union names no id twice in a list and starts with what the first folder's walk found |
| JmapContacts.FoldersInOrder | src/jmap_contacts.rs:417-420 | The folders asked are exactly the stored folders of the account, each once, in storage order |
| JmapContacts.AnswerOverFolders | src/jmap_contacts.rs:426-438 | Over all stored folders of the account: when an id is listed as created, updated or destroyed |
| JmapContacts.EveryFolderTold | src/jmap_contacts.rs:426-438 | A contact that went from any folder of the account, and was not created since, is listed as destroyed |
| JmapContacts.AccountContactDelta | src/jmap_contacts.rs:416-443 | The accumulating loop over the account's folders returns the deduplicated union, or a refusal; every contact destroyed in the window under any stored folder of the account, and not created in it, is in `destroyed` |
| JmapContacts.FolderDeltaSince | src/fixture.rs:1667-1679 | A folder's delta is read from its account's log with that folder's tombstones; an unknown folder is answered from the seed alone |
| Splits.TouchedExactly | src/fixture.rs:1256-1263 | An account is touched exactly when its share is not empty |
| Splits.RoutesEmailsAndMailboxes | src/fixture.rs:1312-1325 | With unique ids, a stored email or mailbox is routed to its own account, any other id to the primary one |
| Splits.RoutesContacts | src/fixture.rs:1346-1356 | A stored contact is routed to the account of its stored folder, and without one to the primary account |
| Splits.RoutesTombs | src/fixture.rs:1386-1475 | A tombstone goes to the account its sidecar names, a contact tombstone to the account of the folder it names |
| Splits.MailboxShare | src/fixture.rs:1396-1410 | A created or updated mailbox is in the share of its own account and in no other |
| Splits.GrantsReachTheRightList | src/fixture.rs:1498-1515 | In a share a grant stays a grant and a revocation a revocation, for the two accounts it names |
| Splits.SplitConserves | src/fixture.rs:1274-1518 | The shares laid end to end give back every list with multiplicity, and tombstones as (id, sidecar) pairs |
| Splits.ShareKeepsOrder | src/fixture.rs:1374-1381 | Inside one account created and updated ids come in the order of the mutation |
| Splits.TombsKeepOrder | src/fixture.rs:1386-1394 | The same for tombstones, each with its sidecar entry |
| Splits.GrantsKeepOrder | src/fixture.rs:1498-1515 | The same for ACL references, a grant to its own owner coming twice in a row |
| Splits.GrantsReachBothSides | src/fixture.rs:1498-1515 | An ACL reference reaches owner and grantee, twice when they are one account |
| Splits.RecordedAdvances | src/fixture.rs:1233-1241 | Exactly the accounts with a non-empty share advance, by exactly one |
| Shares.SplitDiff | src/fixture.rs:1274-1518 | The accumulator loops produce one entry for each touched account, holding exactly its share |
| Shares.DealDestroyed | src/fixture.rs:1386-1394 | The zip of ids and sidecars deals each tombstone to its account and keeps the vectors parallel |
| Shares.DealRefs | src/fixture.rs:1506-1515 | Each ACL reference is dealt to both sides |
| Fixtures.Fixture.constructor | src/fixture.rs:4666-4697 | Loading declarations with unique ids, each in some mailbox, establishes the invariant with the mint counter beyond every number in use, and the ledger law exactly when none names a mailbox twice |
| Fixtures.Fixture.AssignUid | src/fixture.rs:1054-1061 | The next slot holds the email; the UID is the old UIDNEXT |
| Fixtures.Fixture.RetireUid | src/fixture.rs:1068-1077 | The first slot of the email is emptied; a missing email or mailbox changes nothing |
| Fixtures.Fixture.SyncMailboxUids | src/fixture.rs:1084-1100 | Left mailboxes retire, joined ones assign |
| Fixtures.BuildUidHistory | src/fixture.rs:4666-4681 | Load numbers memberships in declaration order |
| Fixtures.Fixture.MintEmailId | src/fixture.rs:1149-1152 | The next id in sequence, which no live email has |
| Fixtures.Fixture.RecordTransition | src/fixture.rs:1214-1245 | An empty diff leaves no trace; otherwise every touched account's log, created on first use, gets its share. The transition handed back has the whole diff and the primary account's tokens before and after |
| Fixtures.Fixture.RecordShare | src/fixture.rs:1233-1241 | One account's history grows by one share, all others stay |
| Fixtures.Fixture.Commit | src/fixture.rs:1195-1201 | What a mail command's closure did and collected becomes one step of the server |
| Fixtures.Fixture.Mutate | src/fixture.rs:1195-1201 | So does an edit of mailboxes, folders, contacts or grants |
| Fixtures.Fixture.StateFor | src/fixture.rs:728-733 | The token of the number of transitions recorded for the account |
| Fixtures.Fixture.HighestModseq | src/fixture.rs:750-756 | That number plus one |
| Fixtures.Fixture.EmailModseq | src/fixture.rs:766-771 | The email's MODSEQ, 1 for an account without a log |
| Fixtures.Fixture.SeedOnly | src/fixture.rs:1555-1561 | An account without a log knows its seed only |
| Fixtures.Fixture.DeltaSinceAccount | src/fixture.rs:1524-1576 | The delta an account's client is owed for any text |
| Fixtures.Fixture.GmailHistorySince | src/fixture.rs:1762-1822 | The same for `history.list`: the log's answer, or, for an account without one, nothing new from the seed and unknown from anything later |
| Fixtures.LoadedIsKept | src/fixture.rs:4684-4695 | Starting the mint counter at the loader's value makes every later minted id new |
| Upkeep.MaxMockSeqBounds | src/fixture.rs:4802-4807 | No loaded id carries a number above the loader's maximum |
| Upkeep.MintInjective | src/fixture.rs:1149-1152 | Different mint numbers give different ids |
| Upkeep.DoKept | src/jmap.rs:1494-1496 | Every edit keeps unique ids, at least one mailbox per email, and fresh minted ids |
| Upkeep.DoNoRepeats | src/jmap.rs:1779-1785 | No edit makes an email name a mailbox twice |
| Upkeep.DoLedger | src/fixture.rs:1084-1100 | Every edit but MOVE keeps the ledger law: no email names a mailbox twice, and the live slots of each mailbox are exactly the emails that list it, once each |
| SpentSlots.ExecSpent | src/fixture.rs:1054-1061 | No command lets a slot hold an id that is still to be minted, MOVE included |
| Ledgers.RetirePointwise | src/fixture.rs:1063-1077 | Retiring empties that email's slot and no other |
| Runs.ExecLedger | src/imap.rs:1874-1898 | Every command keeps the ledger law; MOVE exactly under its condition |
| Runs.MoveKeepsLedgerIff | src/imap.rs:1885-1891 | MOVE keeps the ledger law, and slots matching memberships, exactly when no matched message is already in the target |
| Runs.RunKept | src/imap.rs:2030-2036 | Over every run ids stay unique and every email stays in a mailbox |
| Runs.RunLedger | src/fixture.rs:1054-1100 | Over every clean run the ledger law holds |
| Runs.RunAges | src/fixture.rs:1044-1061 | Over any run slots only retire and ledgers only append, so UIDNEXT never shrinks |
| Runs.UidNamesOneMessage | src/fixture.rs:1046-1061 | Over any run a UID never names two messages |
| Runs.LoadEstablishesLedgerIff | src/fixture.rs:4666-4681 | After load the slots match the memberships exactly when no email names a mailbox twice |
| Runs.MatchedLaw | src/imap.rs:1854-1881 | In a mailbox whose slots match its memberships, matched messages have ascending UIDs, are distinct, and list the mailbox |
| Effects.SetEffect | src/jmap.rs:1363-1462 | After `Email/set`, a destroyed id is gone, stored or just created; any other holds what it held after the creates, patched if an update names it |
| Effects.CopyEffect | src/imap.rs:1719-1760 | COPY adds the target to the matched messages that are stored and changes nothing else, also when a message is matched twice |
| Effects.MoveEffect | src/imap.rs:1874-1898 | MOVE adds the target to the matched messages that are stored and takes the source away, and changes nothing else, also when a message is matched twice |
| Effects.ExpungeEffect | src/imap.rs:2011-2042 | The matched messages with the deleted flag leave the mailbox; an email is gone exactly when that was its only one |
| Effects.VictimsAre | src/imap.rs:2011-2025 | The victims are the live slots whose UID matches and whose stored email carries `$deleted` |
| Effects.VictimsDescend | src/imap.rs:2011-2025 | They are taken highest UID first, each slot once |
| Effects.ExpungeLinesAre | src/imap.rs:2011-2025 | A position is announced exactly when its live slot is a victim |
| Effects.StoreEffect | src/imap.rs:1637-1656 | The addressed messages' keywords become the union, difference or replacement; memberships and all other emails stay |
| Effects.ImportEffect | src/jmap.rs:1798-1862 | After `Email/import` the stored emails are as they were, and one new email follows for each good body, in order: the next id, the mailboxes and keywords the body asks for, the first stored mailbox's account, the date of the newest email there was |
| Effects.SubmitEffect | src/jmap.rs:1976-2093 | After `EmailSubmission/set` each email is what its own submissions, in order, made of it; it is gone exactly when it was, or one of them discards it without patching |
| Effects.BuiltMeaning | src/jmap.rs:1478-1524 | Exactly which bodies are refused and why; a built email is in exactly the requested mailboxes, carries exactly the requested keywords, is owned by the first stored mailbox's account and dated like the newest email |
| Effects.GetSays | src/jmap.rs:1488-1508 | Every field of a request is read, wherever it stands; an absent one reads as null |
| Effects.SaysIsMember | src/jmap.rs:1488-1508 | In parsed JSON the field that is read is the one with that key |
| Effects.ImportedMeaning | src/jmap.rs:1868-1905 | Import is refused for a body that is no object, then for a missing blob id, then for an unknown blob, and otherwise builds what a create would |
| Effects.EditRecords | src/imap.rs:1649-1653 | One edit records nothing for an unknown email, a tombstone with the email's account when it ends it, else an update, unless it was refused or changed nothing |
| Effects.ElsewhereEffect | src/fixture.rs:1195-1201 | A mutation elsewhere replaces what it names, leaves emails and ledger alone and records no email |
| JmapMail.BuildEmail | src/jmap.rs:1488-1533 | The membership checks in order, the owner, the date, and an id minted only on success |
| JmapMail.BuildEmailFromImport | src/jmap.rs:1868-1924 | The blob checks come first |
| JmapMail.PatchOne | src/jmap.rs:1409-1428 | Only a patch that is good as a whole reaches the stored email and its slots |
| JmapMail.VerdictMeaning | src/jmap.rs:1409-1428 | An update is answered notFound exactly when no email has the id, and otherwise by whether the patch is good |
| JmapMail.DestroyMany | src/jmap.rs:1430-1459 | The batch destroy retires and records each requested id that was live |
| JmapMail.SetEmails | src/jmap.rs:1319-1475 | `Email/set` does nothing if the client names another state; otherwise it is one step of the server with the account's tokens before and after, each entry is judged on what the earlier ones left, and what is answered as done is exactly what is recorded, in order |
| JmapMail.ImportEmails | src/jmap.rs:1798-1862 | `Email/import` is one step of the server |
| JmapMail.SubmitEmails | src/jmap.rs:1976-2093 | `EmailSubmission/set` with its on-success patch or discard is one step of the server |
| Patches.ApplyEmailPatch | src/jmap.rs:1646-1734 | The loop stops at the first bad field and checks emptiness once, at the end |
| Patches.PatchMeaning | src/jmap.rs:1646-1734 | For prefix-free patches: refused exactly on an unacceptable field or an emptied membership; otherwise each set has exactly the members the fields say |
| Patches.PatchOrderIndependent | src/jmap.rs:1660-1734 | Every iteration order gives the same verdict and the same sets |
| Patches.SortedPatchMeaning | src/jmap.rs:1660-1734 | For every patch in key order, which is how the locked `serde_json` iterates any object: the exact verdict, and each set's members, replacements first and member paths having the last word |
| Patches.PrefixRuleNeeded | src/jmap.rs:1661-1700 | With a path that is a prefix of another, the opposite order would give another result; key order never yields it |
| Patches.PatchedMailboxes | src/jmap.rs:1779-1785 | An accepted patch leaves a non-empty membership |
| Patches.PatchedDistinct | src/jmap.rs:1762-1767 | It repeats no mailbox if the membership repeated none before |
| Patches.BoolSet | src/jmap.rs:1762-1767 | The keys mapped to true and no others |
| Patches.BoolSetInOrder | src/jmap.rs:1762-1767 | They come in the order of the object |
| Patches.FieldMeaning | src/jmap.rs:1656-1712 | Which paths replace a property, which add and which remove one member, told by their text and value |
| Patches.TouchesMeaning | src/jmap.rs:1655-1712 | Membership is touched by the property's own name and by every path under it |
| Patches.AcceptableMeaning | src/jmap.rs:1656-1712 | The fields a patch may have, told by their text and value; any other refuses it |
| Flags.ApplyInPlace | src/imap.rs:2763-2790 | The edit loop computes the canonical keyword list and the changed bit |
| Flags.StoreMeaning | src/imap.rs:2756-2790 | The result is exactly the union, difference or replacement, strictly ascending, and changed means the set changed |
| Flags.FlagReadsBack | src/imap.rs:3277-3292 | The keyword a printed flag stands for is the keyword it was printed from |
| Flags.SystemFlags | src/imap.rs:3277-3292 | The five system flags and their keywords |
| Flags.FlagsForMeaning | src/imap.rs:3277-3292 | A keyword list is printed as its flags, sorted, with one space between |
| ImapMail.LiveSlots | src/imap.rs:1719-1730 | The live slots with slot index plus one as UID |
| ImapMail.MailboxMessages | src/imap.rs:2271-2293 | The live slots whose email belongs to the account |
| ImapMail.FetchSnapshot | src/imap.rs:1524-1549 | The rows a fetch returns, numbered by position in the whole view |
| ImapMail.ChangedRows | src/imap.rs:1530-1548 | A row is returned exactly when it is asked for and its MODSEQ exceeds the client's |
| ImapMail.ListExpunged | src/imap.rs:3103-3120 | The retired UIDs within the known set, ascending |
| ImapMail.VanishedEarlier | src/imap.rs:1031-1041 | The text of `VANISHED (EARLIER)`, not sent when nothing is gone |
| ImapMail.EmitIdleUpdates | src/imap.rs:1371-1408 | The report is the one whose replay is described below, and the view is remembered |
| ImapMail.StoreMessages | src/imap.rs:1625-1668 | `UID STORE` is one step of the server, addressing by position as the code does; unless silent it reports each addressed message with the flags it has afterwards |
| ImapMail.CopyMessages | src/imap.rs:1719-1778 | `UID COPY` is one step of the server; an unknown target changes nothing |
| ImapMail.MoveMessages | src/imap.rs:1841-1945 | `UID MOVE` is one step of the server; it reports the matched messages that are stored: their UIDs, the run of target UIDs they got, and their sequence numbers, highest first; under the ledger law these are all the matched ones |
| ImapMail.ExpungeMessages | src/imap.rs:1986-2048 | `UID EXPUNGE` is one step of the server; its lines go highest first |
| ImapMail.ExpungeOne | src/imap.rs:2026-2041 | A victim loses the membership and its slot, and is destroyed when that was its last mailbox |
| ImapMail.MoveOne | src/imap.rs:1882-1898 | A message joins the target with a fresh UID before it leaves the source |
| Views.ReplayRemoves | src/imap.rs:1381-1392 | Applying position lines, highest first, removes exactly the marked elements |
| Removals.LiveAfterExpunge | src/imap.rs:1986-2048 | In every store, `UID EXPUNGE` strikes off the live slots, of each expunged email that stays elsewhere, as many as it had victims, first ones first, and of one that goes a single one |
| Removals.LiveAfterMove | src/imap.rs:1854-1927 | In every store, `UID MOVE` strikes off the source's live slots, of each moved email, as many as it was matched by, first ones first |
| Removals.RetireEachRank | src/fixture.rs:1063-1077 | A batch of retirements empties of each email as many of its slots as it is named, in slot order |
| Clients.ExpungeReplayIff | src/imap.rs:1986-2048 | In every store, the list an account is shown loses, of each expunged email that stays elsewhere, its first live slots, as many as it had victims, and of one that goes every slot; applying the announced numbers to the old list gives the new one exactly when, at every place of it, the n-th live message is a victim if and only if the n-th shown one is lost |
| Clients.ReplaySingle | src/imap.rs:1986-2048 | In a mailbox where no email holds two live slots, what is lost by EXPUNGE or MOVE is what was named |
| Clients.ExpungeReplayOfSeen | src/imap.rs:2011-2048 | In such a mailbox, when the account sees every victim, the numbers are right exactly when no message hidden from it lies before one |
| Clients.NothingHiddenReplaysIff | src/imap.rs:2011-2025 | In a mailbox of which the account sees every live slot, the numbers are right exactly when the messages they name are the lost ones |
| Clients.OwnMailboxReplays | src/imap.rs:2271-2293 | In a mailbox with only the account's own emails, whose slots match its memberships, both replays are right |
| Clients.MoveReplayIff | src/imap.rs:1854-1927 | The same statements on the source side of MOVE, in every store; no email goes |
| Clients.MoveReplayOfSeen | src/imap.rs:1854-1927 | In a mailbox where no email holds two live slots, when the account sees every moved message, exactly when no message hidden from it lies before one |
| Removals.CopyUidPairs | src/imap.rs:1885-1897 | In every store COPYUID pairs name the same message, and target UIDs are the run from the old UIDNEXT |
| Views.VanishedPrunes | src/imap.rs:3103-3120 | Live and expunged UIDs partition the assigned ones, so pruning a known set leaves its live part |
| Views.VanishedReadsBack | src/imap.rs:3122-3144 | A client that parses the printed set finds in it exactly the retired UIDs it asked about |
| Resyncs.RunListsSlots | src/fixture.rs:1054-1061 | A live message that got its slot during any run is recorded as created or updated in its account's history |
| Resyncs.ResyncTheorem | src/imap.rs:1022-1041 | After any run, the old cache without the vanished UIDs and with the rows that changed since is the mailbox as shown now, exactly when no slot that was shown outlived its email |
| Resyncs.LawfulIsNotStale | src/fixture.rs:1063-1077 | Under the ledger law no slot outlives its email |
| Views.IdleReplay | src/imap.rs:1371-1408 | The lines leave a prefix of the new view; EXISTS is sent exactly on arrivals and counts prefix plus arrivals |
| Clients.IdleOverRun | src/imap.rs:1371-1408 | The same over any run, on what the account is shown |
| Clients.ViewOnlyAppends | src/imap.rs:2271-2293 | Over any run a UID shown now was shown before or is newer than all that were |
| Views.LedgerOnlyAppends | src/fixture.rs:1047-1061 | New live UIDs lie above all old ones |
| Views.ViewIsLive | src/imap.rs:2271-2293 | In an own mailbox whose slots match its memberships nothing is hidden |
| StoreNumbers.CoherentIff | src/imap.rs:1637-1656 | In a mailbox whose slots match its memberships, `UID STORE` and `UID FETCH` agree exactly when no retired slot precedes a live one and the live slots follow the order of the email list |
| StoreNumbers.ShownCoherentIff | src/imap.rs:2271-2293 | In such a mailbox `UID STORE` numbers the messages as the client is shown them exactly when moreover it holds no other account's email |
| StoreNumbers.RetiredSlotExample | src/imap.rs:1645-1649 | One retired slot makes them differ |
| StoreNumbers.CoherentFromLoad | src/imap.rs:1637-1656 | They agree in every state reached from load by creates alone |
| MailboxTrees.DetectCycles | src/fixture.rs:5835-5853 | Accepts exactly the acyclic parent relations, and what it accepts leaves no account's own list with a cycle |
| MailboxTrees.OwnAcyclic | src/imap.rs:2193-2214 | The per-account list of an accepted tree is acyclic |
| Trees.CycleIsShort | src/fixture.rs:5839-5850 | A cycle returns within as many steps as there are parented mailboxes, so the bounded walk suffices |
| Trees.ChainEnds | src/imap.rs:2233-2239 | In an acyclic tree the walk upwards ends |
| MailboxTrees.MailboxPath | src/imap.rs:2227-2242 | The unbounded walk ends on every acyclic list and gives the path from the root |
| MailboxTrees.RenameAcyclicIff | src/imap.rs:1209-1217 | RENAME keeps the tree acyclic exactly when the new parent is not at or below the renamed mailbox |
| MailboxTrees.RenameRewritesSubtree | src/imap.rs:1165-1222 | Every descendant keeps its old suffix under the new path, every other path stays |
| MailboxTrees.RenamePathStrings | src/imap.rs:2227-2242 | The same for path strings |
| MailboxTrees.PlanMeaning | src/imap.rs:1176-1206 | An unknown old name is refused first, then a new name that is taken, then an unknown parent; otherwise the first mailbox with the old name goes under the first with the parent's, named by what follows the last slash |
| MailboxTrees.TrimSlashesMeaning | src/imap.rs:1176 | Every slash at the end of the new name goes, and nothing else |
| MailboxTrees.EqMeaning | src/imap.rs:1177-1190 | Names are compared letter by letter, the 26 ASCII letters without regard to case |
| MailboxTrees.RenameAnswersIff | src/imap.rs:1177-1217 | Looking up the requested name afterwards finds the renamed mailbox exactly when it is not the INBOX and its new parent is not an INBOX stored under another name |
| MailboxTrees.RenameUnderInbox | src/imap.rs:2227-2242 | A request that is accepted and leaves nothing under the requested name |
| MailboxTrees.RenameUnderItself | src/imap.rs:1195-1217 | A request that is accepted and makes a cycle |
| ImapMailboxes.RenameMailbox | src/imap.rs:1165-1227 | RENAME is one step of the server that edits one mailbox, or changes nothing; the history of the mailbox's account grows by exactly one diff, that mailbox as updated, and every other account's stays; every account's list stays acyclic exactly under the condition above |
| ImapMailboxes.RenameStepOnOwn | src/imap.rs:1177-1217 | In the account's own tree that edit is the rename above |
| ImapMailboxes.OwnRenamed | src/imap.rs:2193-2214 | Editing the stored list and the account's list come to the same |
| ImapMailboxes.RenameKeepsTreesIff | src/imap.rs:1195-1217 | From any state in which every account's list is acyclic, as after a load, a RENAME keeps them all so exactly when it does not hang the mailbox at or below itself |
| UidSets.ParseUidSet | src/imap.rs:2703-2726 | The first bad part refuses the set |
| UidSets.PartForms | src/imap.rs:2703-2726 | The three printed forms of a part, the open range included, and what they match |
| UidSets.PartMeaning | src/imap.rs:2703-2726 | Every part: without a colon one 32-bit number, with one such a number up to its first colon and then a star or another; anything else is refused |
| Text.TrimMeaning | src/imap.rs:2705 | Trimming takes off white space at both ends, all of it and nothing else |
| UidSets.SetMeans | src/imap.rs:2694-2727 | A text without a bad part matches a UID exactly when one of its comma-separated parts, trimmed, does |
| UidSets.FormatUidRanges | src/imap.rs:3126-3144 | The nested loops print the maximal runs; every UID but the last can be incremented in 32 bits, which is all the loops do |
| UidSets.RunsCover | src/imap.rs:3122-3144 | The runs cover exactly the members of the list |
| UidSets.RunsMaximal | src/imap.rs:3122-3144 | The runs ascend and are separated by gaps |
| UidSets.FormatParsesBack | src/imap.rs:2694-2727 | The printed set parses, and matches exactly the members of the list |
| Base64.EncodeWrapped | src/imap.rs:3527-3563 | The chunk loop, the padding and the wrap compute the wrapped encoding |
| Base64.DecodeText | src/imap.rs:2394-2422 | The 32-bit accumulator loop computes the decoding, refusing any other character |
| Base64.RefusedIff | src/imap.rs:2394-2422 | A text is refused exactly when it has a character outside the alphabet and the four that are skipped |
| Base64.Alphabet | src/imap.rs:3527-3530 | The 64 letters in the order of their values |
| Base64.Vectors | src/imap.rs:3527-3563 | The test vectors of RFC 4648 for one, two and three bytes |
| Base64.PushQuad | src/imap.rs:2405-2419 | Four sextets give back three bytes whatever is left in the buffer |
| Base64.DecodeOfWrapped | src/imap.rs:2394-2422 | Decoding a wrapped encoding returns the bytes, for every byte string |
| Base64.WrappedShape | src/imap.rs:3553-3562 | Lines of exactly 76 but the last; four characters for every three bytes begun and two for each line |
| Paging.EmailQuery | src/jmap.rs:545-686 | The refusals in order, then the window of the sorted listing, with the anchor sum in 64 bits |
| Paging.ListingLaw | src/jmap.rs:618-627 | The listing holds each matching email once, newest first, ties by id |
| Paging.PageByPosition | src/jmap.rs:562-667 | Without an anchor, the page is the stretch of the listing from the position (0 when absent), as long as the limit (50 when absent, at most 256) |
| Paging.PageByAnchor | src/jmap.rs:629-667 | With an anchor, it starts at the anchor's place plus the offset, for every offset, but not before the head, where a sum past 63 bits lands too |
| Paging.Refusals | src/jmap.rs:556-600 | The refusals of account, position and limit, in that order |
| Paging.StorageOrderIsInvisible | src/jmap.rs:615-627 | Answers do not depend on the order of storage |
| Paging.WalkEnumerates | src/jmap.rs:629-667 | From the head, n pages of the anchor walk yield exactly the first n times limit ids, each once, and the page after the last id is empty |
| Paging.UnknownAnchorRejected | src/jmap.rs:637-646 | An anchor is refused exactly when it is outside the result set |
| Durations.FormatDuration | src/jmap_calendar.rs:1150-1177 | The reducing branches print days, hours, minutes and seconds |
| Durations.FormatMeaning | src/jmap_calendar.rs:1150-1177 | A positive duration is printed as its days and what is left of a day, zero parts left out, and the T with them |
| Durations.ClockMeaning | src/jmap_calendar.rs:1163-1175 | The time of day as hours, minutes and seconds |
| Durations.ParseDuration | src/jmap_calendar.rs:1202-1245 | The character loop with wrapping 64-bit sums |
| Durations.StepMeaning | src/jmap_calendar.rs:1202-1245 | Each character read: a unit adds its length in seconds times the number before it, modulo 2^64; hours, minutes and seconds only after a T; anything else is skipped |
| Durations.EveryUnit | src/jmap_calendar.rs:1202-1245 | A duration written with weeks, days, hours, minutes and seconds is their sum in seconds |
| Durations.ParseOfFormat | src/jmap_calendar.rs:1150-1245 | Reading back gives max(s, 0), and no product or sum passes it |
| Examples.CancelledYetUpdated | src/fixture.rs:1123-1129 | Three transitions whose delta names a dead id as updated |
| Examples.DeadContactReported | src/jmap_contacts.rs:416-438 | Two folders, and a contact that came and went reported as created |
| Examples.MoveDoubles | src/imap.rs:1885-1891 | A lawful store in which one MOVE gives a message two live UIDs |
| Examples.LoadDoubles | src/fixture.rs:4666-4681 | A declaration that loads with two live UIDs for one message |
| Examples.SlotOutlivesEmail | src/fixture.rs:1063-1077 | Destroying that message leaves a shown slot live |
| Examples.OrphanMisroutes | src/fixture.rs:1312-1318 | An `Email/set` on a secondary account after which replay gives the primary account an email that does not exist, and the tombstone goes to the other |
| Examples.SeedForgets | src/fixture.rs:573-578 | A run of 257 commands after which replay from the seed keeps a destroyed email |
| Examples.HiddenSlotExample | src/imap.rs:2011-2025 | A store reached from a load by two `Email/set` calls, in which a client applies `* 2 EXPUNGE` and keeps the message that is gone |
| Examples.DoubledReplay | src/fixture.rs:1068-1077 | A loaded store in which EXPUNGE, and likewise MOVE, of UID 2 leaves the client with UID 1 and the server with UID 2, nothing being hidden |
| Examples.CopiedOlder | src/imap.rs:1637-1656 | After a COPY of an older email `UID STORE` and `UID FETCH` call it by different UIDs |

## Left out

- JmapMail.SetEmails: does not model the guard on an unknown account, which comes before any edit, nor the wording of errors; answers are lists in request order, not objects.
- JmapMail.SubmitEmails: takes the email id of each submission as already resolved from the request or its back-reference.
- Paging.EmailQuery: wraps the anchor sum as an optimised build does; a build with overflow checks would stop instead. Times are whole seconds.
- Durations.ParseDuration: wraps on overflow as an optimised build does; a build with overflow checks would stop instead.
- Fixtures.Fixture.GmailHistorySince: does not model the label lists of a history record, only the ids and the added and deleted messages; no command modelled here records a label change.
- ChangeLogs.ChangeLog.GmailHistorySince: the same, for one log.
- Sorting.Sort: is a specification of the library's sorts, by insertion; their in-place algorithms are not modelled.
- Counters: commands require that no 64-bit change or mint counter is exhausted, and UIDs are unbounded; the source panics at those bounds.
- Resource kinds: emails, mailboxes, contacts and ACL references are modelled; calendars, events, contact folders as changing resources, categories and groups repeat the same routing.
- `Mailbox/set`, mailbox CREATE and DELETE, and `ContactCard/set`: not modelled command by command; in a run each is an `Elsewhere` step as long as it edits no email (a mailbox destroyed together with its emails is not one).
- Message content: subjects, addresses, bodies, sizes and MIME parsing play no part in sync.
- JSON: requests arrive as parsed values whose objects do not repeat keys; numbers, arrays and serialisation are not modelled.
- Shared `#user/` folders: a connection selects its own account's mailboxes, so MOVE across accounts is not modelled.
- Microsoft Graph, EWS, People API, CalDAV, CardDAV, SMTP, OAuth, push and the test-admin surface.
- Tokio, sockets, locks, latency and logging: each command is one atomic step, as it is under the fixture's write lock.
- Times beyond an ordered integer, time zones and recurrence.
- Loading from TOML or Lua: its uniqueness and parent-existence checks are preconditions of the initial state.
