# Verified model of the mail server's core logic

This project models the dense, I/O-free pieces of a self-hosted mail server and proves what they are
relied on for. The database is an in-memory table, sockets are sequences of reads, and everything that is
library code in the original (SMTP and MIME parsing, hashing, MACs, JSON, base64 of page tokens, UUID and
timestamp text, text collation) is a function parameter with its assumption stated where it is needed.

Check everything with `dafny verify dfyconfig.toml`.

| file | what it models |
|---|---|
| `RateLimiter.dfy` | the token-bucket limiter: refill, debt, idle eviction, the bucket cap, and runs of it |
| `Labels.dfy` | restricted-label admission, in-place thread redaction, label mutation |
| `Scope.dfy` | credential scope, mount, window, probe and denial; the identity the auth layer builds |
| `Keyset.dfy` | keyset pages over any totally ordered keys, whole walks, and clients that only hold tokens |
| `Messages.dfy` | the messages table, its page tokens, listing and non-interference of hidden rows |
| `ApiKeys.dfy` | the api-key listing at three mounts and its mount-bound tokens |
| `Threading.dfy` | which thread a message joins: header links, the assigner's loop, its set specification |
| `Ingest.dfy` | the tail of accepting a delivery, runs of deliveries, the thread forest and aggregates |
| `Races.dfy` | deliveries accepted at the same time, interleaved at every database call |
| `RowLock.dfy` | N transactions on one row under `SELECT ... FOR UPDATE` |
| `Smtp.dfy` | line framing over arbitrary reads, DATA, dot-stuffing |
| `SmtpSession.dfy` | the command loop, the connection across STARTTLS, and safety of every trace |
| `Blobs.dfy` | write-to-temp-then-rename by interleaved and crashing writers |
| `Download.dfy` | signed download tokens: base64url, decimal, UTF-8, minting and verifying |

How the source's form is kept: objects and tables that methods update are classes (`RateLimiter`,
`MessageStore`, `KeyStore`, `MailStore`, `Thread`, `Socket`) whose methods are proved equal to a function of
the old state; loops are loops with invariants; each theorem is then about that function and about runs of
it. Concurrency is a step relation (`Races`, `RowLock`, `Blobs`).

Results that went against the original's own words, or that hold only under a condition:

- A limit of `i64::MAX` or more hides the extra row, so `next` is missing exactly when more than
  `i64::MAX` rows remain (`Keyset.NextIffMore`).
- A page token holds an RFC 3339 time in milliseconds, so it names its row exactly when the stored time is
  millisecond-exact and its year has four digits (`Messages.TimestampRoundTrip`). The migrations declare
  `TIMESTAMPTZ(3)`, so stored times are exact; but the time comes from the sender's Date header, and a walk
  is refused exactly when a page ends on a row whose year has more than four digits
  (`Messages.ClientWalkIsComplete`).
- An evicted bucket is unobservable as long as each penalty lands within the idle window. A later penalty
  that finds its bucket evicted is forgotten, with an observable difference for exactly the costs and times
  `RateLimiting.LatePenaltyIsForgotten` names; one that finds the bucket still there is not.
  `RateLimiting.EvictionForgetsPenalties` is a run, with the original's constants, in which this happens
  (`RateLimiting.EvictionIsObservable`).
- The first To list of a thread is stored as it came, so a thread's recipients are distinct exactly when
  its first message's were (`Ingest.Tallies`, through `Ingest.AggregatesAreConserved`).
- A failure between the inserts leaves a thread whose row disagrees with its members for good. A NUL in a
  text that only the messages row binds (a body, a carbon copy, a linkage header) is such a failure, and
  one in a text of the thread row is not (`Ingest.OrphanOpenedIff`).
- Two deliveries of one new message that pass the duplicate check together both open a thread; the one that
  loses the primary key answers a duplicate and leaves its thread, counting one message, empty for good
  (`Races.TwinsLeaveAnOrphan`); nothing else a race does leaves one (`Races.LostRaceLeavesAnOrphanIff`).
- The comment above `update` in `crates/amk-store/src/messages.rs` speaks of a single statement; the code
  reads `FOR UPDATE` and writes in a second statement. The model follows the code, and
  `RowLock.AnUnlockedJoinIsLost` shows what the lock is for.
- The 16 KiB check looks at the whole buffer after a read, so lines of 15362 to 16384 bytes depend on the
  chunking exactly when more than 16384 bytes arrive (`Smtp.FramingDependsOnReadsIff`).
- Unstuffing removes a leading period only before another period, which differs from the receiver rule of
  section 4.5.2 of RFC 5321 exactly on lines no stuffing sender produces (`Smtp.DestuffDiffersIff`).
- The temporary blob name is shared by puts of one content in one process. From every state, two that
  overlap can publish a truncated blob (`Blobs.SharedTempNamePublishesATruncatedBlob`), and letting them
  overlap is safe iff the content is empty (`Blobs.OverlapIsSafeIffEmpty`).

## Model

| member | source | states |
|---|---|---|
| RateLimiting.RateLimiter.CheckAt | crates/amk-http/src/ratelimit.rs:128-162 | the new bucket map and the answer are those of one check: evict idle buckets at the cap, fail open if still full, else refill, answer, and charge only when granted; the map never exceeds the cap |
| RateLimiting.RateLimiter.PenaliseAt | crates/amk-http/src/ratelimit.rs:183-198 | a known subject is refilled and debited down to minus the capacity; an unknown one is left without a bucket |
| RateLimiting.CheckByBalance | crates/amk-http/src/ratelimit.rs:128-162 | a check is granted iff the subject's balance covers it, takes exactly its cost when granted and nothing when refused, comes back at the refill rate, and moves no other subject's balance at any later time |
| RateLimiting.FailOpenByBalance | crates/amk-http/src/ratelimit.rs:128-162 | a check that fails open answers true and moves no subject's balance at any later time |
| RateLimiting.FailsOpenIff | crates/amk-http/src/ratelimit.rs:128-147 | a check fails open iff the map holds 50,000 buckets all touched within the last 600 seconds |
| RateLimiting.PenaltyByBalance | crates/amk-http/src/ratelimit.rs:183-198 | a penalty lowers only its subject's balance, floored at minus the capacity, and comes back at the refill rate |
| RateLimiting.RunKeepsBounds | crates/amk-http/src/ratelimit.rs:35-49 | in every run, through the fail-open branch as well, balances stay within plus or minus the capacity and the map within the cap |
| RateLimiting.EvictionIsUnobservable | crates/amk-http/src/ratelimit.rs:128-198 | in a run that avoids the fail-open branch and penalises in time every check is answered as by an unbounded map that never evicts |
| RateLimiting.LatePenaltyIsForgotten | crates/amk-http/src/ratelimit.rs:183-198 | a penalty that finds its bucket evicted changes the answer to a check at any later time iff the check's cost lies above what the debt, refilled since, should have left and within the capacity |
| RateLimiting.EvictionForgetsPenalties | crates/amk-http/src/ratelimit.rs:128-198 | the hypothesis on penalties is needed: a run at the original's constants, without fail-open, whose late penalties let a check pass that an unbounded map refuses |
| RateLimiting.EvictionIsObservable | crates/amk-http/src/ratelimit.rs:128-198 | such a run exists: without fail-open, it ends in a check that the limiter grants and an unbounded map refuses |
| RateLimiting.DefaultsAreSound | crates/amk-http/src/ratelimit.rs:35-49 | capacity 120 and 2 a second refill the deepest debt within the idle window, and 401 and 403 alone cost 20 where any other status costs 1 |
| RateLimiting.WindowBound | crates/amk-http/src/ratelimit.rs:128-162 | in every run the cost charged to a subject by its granted checks in any window of length T is at most capacity plus refill times T; what fails open is not charged and not counted |
| RateLimiting.ChargeBound | crates/amk-http/src/observability.rs:261-321 | the same bound on checks and penalties together for a caller whose penalties follow its granted checks |
| RateLimiting.AuthFailureBound | crates/amk-http/src/observability.rs:261-321 | n authentication failures in a row within T satisfy 21(n-1)+1 <= 120+2T |
| RateLimiting.RecoveryIsCertain | crates/amk-http/src/ratelimit.rs:128-198 | in every run a check of cost c is granted once the time since the last charge, times the refill rate, reaches capacity plus c, however many refused checks fell between |
| RateLimiting.DrainedSubjectWaits | crates/amk-http/src/ratelimit.rs:128-162 | at the defaults a subject that has spent everything is granted a check of cost c exactly from c/2 seconds on |
| RateLimiting.AllowanceIsAttained | crates/amk-http/src/ratelimit.rs:35-49 | the bound of the window is attained: a subject that spends its burst of 120 and then a token every half second is always granted, 120 + 2T in time T |
| Labels.AdmitMeans | crates/amk-core/src/labels.rs:322-347 | admission holds iff no label is one of the four restricted ones without its read permission or its request; a refusal names the first label refused for its reason, and permissions go before requests in any label order |
| Labels.ExclusionIsAdmission | crates/amk-core/src/labels.rs:362-367 | the labels pushed into a query exclude exactly the rows the in-memory verdict refuses |
| Labels.ApplyMutation | crates/amk-core/src/labels.rs:646-663 | the loop computes the mutation specified by `Mutated` |
| Labels.MutationMeans | crates/amk-core/src/labels.rs:646-663 | the result is (current + add) - remove as a set; survivors keep order and duplicates in front, and each new label is appended once |
| Labels.MutationAppends | crates/amk-core/src/labels.rs:646-663 | added labels come in the order given: one more is appended last iff it is new and not removed |
| Labels.MutationIsIdempotent | crates/amk-core/src/labels.rs:646-663 | applying the same mutation again changes nothing |
| Labels.Thread.Redact | crates/amk-core/src/labels.rs:425-483 | unless withheld, exactly the admitted members remain in order, every remaining thread label is admitted, and the item is the stripped one; unchanged iff nothing offended |
| Labels.RedactTwice | crates/amk-core/src/labels.rs:425-483 | redacting what was served is Unchanged |
| Labels.RedactBoth | crates/amk-core/src/labels.rs:425-483 | of two threads redacted side by side: when both hide a member and show the same ones, messages and all aggregates come out equal whatever they said before; when nothing is hidden, nothing but the labels changes |
| Labels.SurvivorsAreAccountedFor | crates/amk-core/src/labels.rs:425-483 | a sender, recipient (To, Cc or Bcc), attachment id or label survives iff a member the caller may see (or the verdict) accounts for it, and subject, thread and place stay |
| Labels.AggregatesAreOfWhatIsSeen | crates/amk-core/src/labels.rs:425-506 | when a member is hidden and one remains, last id, time and preview are those of the last member the caller may see, count and size are the whole less what is hidden, and received and sent times are the latest among what it may see |
| Labels.LatestIsTheMaximum | crates/amk-core/src/labels.rs:485-506 | the received and sent times are the maximum over the members carrying the label, absent iff none does |
| Scopes.WindowIsIntersection | crates/amk-core/src/scope.rs:345-398 | a resolved window admits a row iff the row lies in both the credential's scope and the mount |
| Scopes.DenialMeansEmpty | crates/amk-core/src/scope.rs:345-398 | resolution denies iff no row can lie in both |
| Scopes.MountIsServedIffReachable | crates/amk-http/src/scope_ext.rs:25-74 | a mount is served iff the credential proves it or the store holds its resource inside the scope; otherwise the one denial, fixed by the URL's shape |
| Scopes.ForeignIsAbsent | crates/amk-core/src/scope.rs:481-486 | a foreign and an absent resource leave through the same denial |
| Scopes.IdentityIsAcceptedIff | crates/amk-core/src/scope.rs:281-318 | an identity resolves to a scope iff it spells out exactly that scope's coordinates, and a refusal says what is missing, too narrow or contradictory |
| Scopes.AuthResolvesToTheRow | crates/amk-http/src/auth.rs:72-173 | the identity built for a key row is accepted iff its inbox, if any, is live, and resolves to the row's own coordinates |
| Scopes.ServedRowsAreCoveredByKeyAndMount | crates/amk-http/src/auth.rs:72-173 | end to end from key row to window: a live row is served iff the key's columns and the mount both cover it |
| Scopes.PinsAreAdmission | crates/amk-core/src/scope.rs:616-634 | the byte-wise SQL pins agree with the case-folding in-memory verdict on stored rows |
| Scopes.WindowsAreLowered | crates/amk-core/src/scope.rs:345-398 | every window pins its inbox in stored lower case |
| Prelude.FoldMeans | crates/amk-types/src/ids.rs:214-221 | folding identifies the two cases of the 26 ASCII letters and nothing else, and leaves no capital |
| Keyset.NextIffMore | crates/amk-store/src/messages.rs:417-527 | a page is the first `limit` rows after the cursor, `next` is its last row, present iff a row remains, except exactly when the extra row cannot be asked for |
| Keyset.Fetch | crates/amk-store/src/messages.rs:372-395 | the query returns the first n rows after the cursor in sort order |
| Keyset.WalkIsStable | crates/amk-store/src/messages.rs:503-524 | whatever changes between pages, emitted keys are strictly monotone, none repeats, and a finished walk emitted every key present throughout |
| Keyset.WalkTerminates | crates/amk-store/src/messages.rs:503-524 | with deletions only a walk finishes within one page more than it started with rows |
| Keyset.WalkIsComplete | crates/amk-store/src/messages.rs:417-527 | over an unchanging table the concatenated pages are its keys in order, each once |
| Keyset.PagesAreSlices | crates/amk-store/src/messages.rs:417-527 | the p-th page of an unchanging table ends at row p times the limit |
| Keyset.HonestClientIsStable | crates/amk-store/src/messages.rs:503-524 | the same for a client that only follows opaque tokens of a server that honours them; it is refused iff the walk rests on a key no token can name |
| Keyset.HonestClientCompletes | crates/amk-store/src/messages.rs:417-527 | over an unchanging table such a client receives exactly the keys in order iff every page end but the last can be named, and is refused with a proper part of them otherwise |
| Messages.DirectedIsTotal | crates/amk-store/src/messages.rs:372-395 | the three-column comparison is a strict total order in both directions |
| Messages.TimestampRoundTrip | crates/amk-store/src/pagination.rs:51-62 | a timestamp survives a token iff it is millisecond-exact and its year has four digits |
| Messages.CursorRoundTrip | crates/amk-store/src/pagination.rs:64-122 | a token decodes to its cursor with the inbox lower-cased and the time truncated, to WrongType when its year has no four-digit form, or to WrongScope when the request is pinned to another inbox |
| Messages.TokenIsAcceptedIff | crates/amk-store/src/pagination.rs:64-122 | a text is a token at a mount iff it carries the three named fields, no NUL, a time and the pinned inbox in any case; a refusal names what is wrong |
| Messages.MessageStore.Insert | crates/amk-store/src/messages.rs:181-262 | a row is stored under its folded inbox iff no text it binds carries a NUL and the key is new; a NUL in one of the four guarded columns is answered as such, in any other text by the database, a taken key as a duplicate; otherwise nothing changes |
| Messages.MessageStore.Get | crates/amk-store/src/messages.rs:329-357 | a row is found iff it is in the window and carries no excluded label |
| Messages.MessageStore.List | crates/amk-store/src/messages.rs:417-527 | fetch one more, truncate, anchor the token on the last row kept; NUL pins, zero limits and malformed cursors as in the source |
| Messages.MessageStore.Update | crates/amk-store/src/messages.rs:555-604 | labels of exactly the row in the window become the mutation of its labels, which is also the answer; elsewhere absent and unchanged; an added label with a NUL rolls the update back |
| Messages.MessageStore.Delete | crates/amk-store/src/messages.rs:608-634 | exactly the row in the window goes; outside it the answer is the same as for absent |
| Messages.WindowIsAdmission | crates/amk-store/src/messages.rs:329-357 | a row is reached by id iff it has that id and, in any case, that inbox, and the in-memory window admits it |
| Messages.ListMeans | crates/amk-store/src/messages.rs:377-527 | a page holds the first rows behind the cursor that the window and the labels admit, ascending ones oldest first, descending ones newest first, ties by inbox and id; the token names its last row and is there iff another row follows; no limit or an impossible inbox gives an empty page, a NUL in the cursor an error |
| Messages.IssuedTokensResume | crates/amk-store/src/pagination.rs:84-122 | a token issued at a mount decodes there to the key it was issued for iff the row's year has four digits, and to nothing otherwise |
| Messages.EndpointIsHonest | crates/amk-store/src/messages.rs:417-527 | decode-then-list pages over the selected rows, its tokens resume where they were issued when they can name the row, and every other token is refused |
| Messages.ClientWalkIsComplete | crates/amk-store/src/messages.rs:417-527 | following `next` over an unchanging table yields exactly the selected rows, oldest or newest first as asked, iff the last row of every page but the last has a four-digit year; otherwise the client is refused with a proper part of them |
| Messages.ClientWalkIsStable | crates/amk-store/src/messages.rs:503-524 | whatever is inserted, deleted or relabelled between requests, rows come strictly oldest or newest first as asked, none twice, a completed walk missed none selected throughout, and the client is refused iff the walk rests on a row no token can name |
| Messages.ClientWalkEnds | crates/amk-store/src/messages.rs:503-524 | with deletions only, of the row a token names too, the walk ends, complete unless it rests on a row no token can name |
| Messages.PushdownIsTheVerdict | crates/amk-store/src/messages.rs:377-384 | the WHERE clause holds of a stored row iff window and labels both admit it |
| Messages.HiddenRowsAreUnobservable | crates/amk-store/src/messages.rs:417-527 | tables that agree on visible rows answer every request alike, tokens included |
| ApiKeys.TokensAreMountBound | crates/amk-store/src/pagination.rs:293-392 | a token issued at a mount decodes at that mount, up to inbox case, to its key, and is WrongScope at every other; one for a time outside four-digit years is WrongType everywhere |
| ApiKeys.TokenIsAcceptedIff | crates/amk-store/src/pagination.rs:293-392 | a text is a token at a mount iff it carries a time, a canonical key id and exactly that mount's coordinates; a refusal names what is wrong |
| ApiKeys.KeyStore.List | crates/amk-store/src/api_keys.rs:563-678 | the page, the backfilled pods and a token built from the mount rather than the row |
| ApiKeys.FillPods | crates/amk-store/src/api_keys.rs:563-678 | the in-place backfill shows each inbox key with its inbox's pod and leaves the others |
| ApiKeys.ListMeans | crates/amk-store/src/api_keys.rs:563-678 | a page holds the mount's first keys behind the cursor in the direction asked for by creation time and id, an inbox key shown with its inbox's pod and any other as it is, and a token of the mount iff another key follows |
| ApiKeys.KeyWalkIsComplete | crates/amk-store/src/api_keys.rs:563-678 | at every mount, the organization's over mixed-scope keys included, a walk is never refused and lists exactly the mount's keys, oldest or newest first as asked |
| ApiKeys.KeyWalkIsStable | crates/amk-store/src/api_keys.rs:563-678 | while keys come and go between requests no walk is refused or lists a key twice, and a completed one listed every key that was there throughout |
| ApiKeys.KeyWalkEnds | crates/amk-store/src/api_keys.rs:563-678 | with deletions only a key walk completes |
| ApiKeys.ListedKeysLieInScopeAndMount | crates/amk-http/src/scope_ext.rs:81-89 | the keys listed for a served window are exactly those inside both the credential's scope and the mount, less the inbox-bound keys when the window is a pod |
| ApiKeys.RowScopedTokensWouldBreakTheWalk | crates/amk-store/src/api_keys.rs:563-678 | with tokens that name the last row's own scope an organization walk would list all keys iff no page but the last ended on a pod or inbox key, and otherwise be refused with a proper part of them |
| Threading.PaddingIsIgnored | crates/amk-core/src/threading.rs:266-272 | whitespace around a link does not change its canonical form |
| Threading.BracketsAreIgnored | crates/amk-core/src/threading.rs:266-272 | a bare and a bracketed spelling have one canonical form |
| Threading.LinkIsFixed | crates/amk-core/src/threading.rs:266-287 | a canonical link is its own canonical form and its own index key |
| Threading.TrimMeans | crates/amk-core/src/threading.rs:266-287 | trimming takes all whitespace off both ends and nothing else |
| Threading.CanonicalLinkMeans | crates/amk-core/src/threading.rs:266-272 | the canonical link of a text is its trimmed text in brackets, its own or added ones, and absent iff that is blank or an empty pair |
| Threading.Assign | crates/amk-core/src/threading.rs:173-231 | the loop over the references, with its accumulators, computes the set specification |
| Threading.AssignmentMeans | crates/amk-core/src/threading.rs:173-231 | In-Reply-To if it resolves; else join iff the usable references reach exactly one thread, ambiguous iff two or more, no linkage iff there is no link |
| Threading.OrderAndRepetitionAreIgnored | crates/amk-core/src/threading.rs:173-231 | permuting or repeating references keeps the thread outcome |
| Threading.SpellingIsIgnored | crates/amk-core/src/threading.rs:173-231 | respelling references by padding or brackets keeps the thread outcome |
| Threading.AssignmentIsLocal | crates/amk-core/src/threading.rs:173-231 | the outcome depends on the index only through the links the candidate carries |
| Ingest.MailStore.FillThreadIndex | crates/amk-ingest/src/accept.rs:510-533 | looking the carried ids up one by one yields an index that agrees on them with the index of the whole store |
| Ingest.PartialIndexSuffices | crates/amk-ingest/src/accept.rs:395-416 | assigning over that partial index is assigning over the whole inbox |
| Ingest.MailStore.AssignThread | crates/amk-ingest/src/accept.rs:395-416 | fill, then assign: the thread is the one the whole store determines |
| Ingest.MailStore.RecordMember | crates/amk-store/src/threads.rs:319-381 | exactly one thread row absorbs the member: last id and time are the member's own, counters saturate, senders and recipients grow by unseen addresses only; refused iff the guarded id or a column of the new row carries a NUL |
| Ingest.MemberMovesOnly | crates/amk-store/src/threads.rs:319-381 | joining adds one to the count and the size, up to the column's maximum, replaces last id and time, and the preview if the member has one, and leaves labels, subject, times of the opening and place alone |
| Ingest.MailStore.Accept | crates/amk-ingest/src/accept.rs:333-498 | the imperative delivery is the delivery function, with injected failures and texts the database refuses in either insert, and keeps the forest |
| Ingest.StructuredIsPiecewise | crates/amk-ingest/src/accept.rs:745-755 | the structured references are the canonical links of the header texts that have one, in order, each of them and nothing else |
| Ingest.DeliveryGoesWhereItsHeadersPoint | crates/amk-ingest/src/accept.rs:333-498 | from header texts to the stored row: a new delivery the database can take is accepted into the thread of the stored message its In-Reply-To names, else into the one stored thread its References reach, else, for none or several, into a new one; and the row carries every field as it came |
| Ingest.RefusalsStoreNothing | crates/amk-ingest/src/accept.rs:333-393 | a delivery is refused for its Message-ID iff it has none, dropped iff SPF fails hard, a duplicate iff its id is stored in the inbox, and then nothing changes |
| Ingest.UnauthenticatedMailIsWithheld | crates/amk-ingest/src/accept.rs:501-508 | a stored delivery is hidden from a caller iff it was not authenticated and the caller may not see, or did not ask for, unauthenticated mail |
| Ingest.LogIsTheTable | crates/amk-store/src/messages.rs:181-262 | the store deliveries go to is the messages table: same rows under the same keys, and inserting into one is inserting into the other |
| Ingest.RunsKeepForest | crates/amk-ingest/src/accept.rs:387-498 | in every sequential run, failures and repeated thread ids included, ids are unique per inbox and every stored message is the root of its thread or links to an earlier member of its thread and inbox |
| Ingest.StoredThreadsArePermanent | crates/amk-ingest/src/accept.rs:387-498 | a stored message never changes and a thread never changes inbox |
| Ingest.ThreadsNeverMergeOrSpan | crates/amk-ingest/src/accept.rs:387-498 | two messages share a thread at the end iff they did when both were stored, and one thread has one inbox |
| Ingest.RedeliveryChangesNothing | crates/amk-ingest/src/accept.rs:387-393 | once stored, the same Message-ID in the same inbox, in any case, is refused for ever after and the store stays as it is |
| Ingest.EveryMemberReachesTheRoot | crates/amk-ingest/src/accept.rs:387-498 | from every member parent links lead inside its thread to the one root that thread has |
| Ingest.AggregatesAreConserved | crates/amk-store/src/threads.rs:319-381 | a thread row's count equals its member count iff no delivery damaged that thread, which is read off each delivery and the store before it; and then size, last id, time, last preview, senders and recipients are those of its members and the rest those of its first |
| Ingest.OrphanOpenedIff | crates/amk-ingest/src/accept.rs:418-476 | when the database refuses nothing but a NUL, opening a thread stores nothing iff a text of the thread row carries one, succeeds iff no bound text does, and otherwise stops between the two inserts, leaving a thread that counts a message it does not have |
| Races.AloneIsDeliver | crates/amk-ingest/src/accept.rs:387-498 | a call whose database calls nobody interrupts, in any order of its lookups and with any of its writes failing, is the one delivery of the sequential model |
| Races.EarlyRefusalIsDeliver | crates/amk-ingest/src/accept.rs:333-393 | a call the sequential model refuses before the lookups is refused alike in its first step |
| Races.InterleavingsKeepForest | crates/amk-ingest/src/accept.rs:387-498 | in every interleaving of any number of calls, database call by database call and any of them failing, the forest stands: a join decided on lookups that are stale by now still links to a member |
| Races.OneCallWinsTheId | crates/amk-ingest/src/accept.rs:387-498 | of the calls for one Message-ID and inbox at most one stores it; another is told of a duplicate only if one did; an accepted message is stored in the thread named |
| Races.OrphansAreStranded | crates/amk-ingest/src/accept.rs:418-498 | in every interleaving a thread is without messages iff the call that opened it has not stored its own, yet or for good |
| Races.LostRaceLeavesAnOrphanIff | crates/amk-ingest/src/accept.rs:418-498 | without failures a thread stays without messages iff a call that opened it then lost the primary-key race, and the winner's message stands in another thread |
| Races.TwinsLeaveAnOrphan | crates/amk-ingest/src/accept.rs:387-498 | the race is real: from any store, two calls for one new message without linkage can leave such a thread |
| Races.CountsAgreeIff | crates/amk-store/src/threads.rs:319-381 | in every interleaving a thread row's count is its member count iff no call stands, or stopped, between its message insert and its row update |
| RowLock.UpdatesSerialise | crates/amk-store/src/messages.rs:555-604 | under the row lock every interleaving, rollbacks included, leaves the row as the committed transactions would in commit order, each once |
| RowLock.AnswersAreAsOfCommit | crates/amk-store/src/messages.rs:555-604 | what a transaction answers is the row as of its own commit |
| RowLock.LocksAreReleased | crates/amk-store/src/messages.rs:555-604 | an unhindered transaction commits what it writes and frees the lock, and one that fails half-way leaves the row as it was and the lock free |
| RowLock.ThreadUpdatesAreNeverLost | crates/amk-store/src/threads.rs:319-442 | labels are the fold of the label patches in commit order and no committed join's count, size, sender or recipient is lost |
| RowLock.MessageUpdatesAreNeverLost | crates/amk-store/src/messages.rs:555-604 | concurrent label patches on a message fold in commit order and touch nothing else |
| RowLock.AnUnlockedJoinIsLost | crates/amk-store/src/threads.rs:319-381 | without FOR UPDATE two interleaved joins both commit and count once |
| Smtp.FrameLine | crates/amk-ingest/src/smtp.rs:403-424 | a framed line and what is left are exactly the bytes that were there |
| Smtp.FrameLineMeans | crates/amk-ingest/src/smtp.rs:403-424 | a line is delivered up to the first newline; end of stream means no newline; too long means the line exceeds 15361 bytes |
| Smtp.FramingDependsOnReadsIff | crates/amk-ingest/src/smtp.rs:403-424 | the chunking matters iff the line is of 15362 to 16384 bytes and more than 16384 bytes are sent |
| Smtp.ReadLine | crates/amk-ingest/src/smtp.rs:403-424 | the reading loop computes the framing function on buffer and socket |
| Smtp.ReadData | crates/amk-ingest/src/smtp.rs:427-454 | the collecting loop computes the collecting function on buffer and socket |
| Smtp.CollectMeans | crates/amk-ingest/src/smtp.rs:427-466 | under any chunking the body is the concatenated unstuffed lines if it fits the cap and empty with the oversize flag if not, and exactly the bytes behind the terminator stay unread |
| Smtp.UnstuffedMeans | crates/amk-ingest/src/smtp.rs:427-466 | a body is the lines before the first terminator, each unstuffed, whatever the sender |
| Smtp.BodiesAreTerminated | crates/amk-ingest/src/smtp.rs:427-466 | there is a body only where a period stands alone on a line, ended by CRLF or LF |
| Smtp.DataRoundTrip | crates/amk-ingest/src/smtp.rs:427-466 | a body dot-stuffed per section 4.5.2 of RFC 5321 arrives unchanged, or oversize, under any chunking, with either spelling of the terminator and with pipelined bytes behind it |
| Smtp.DestuffDiffersIff | crates/amk-ingest/src/smtp.rs:460-466 | unstuffing agrees with the standard's receiver iff the line does not begin with a lone period, that is, iff some sender's stuffing produces it |
| SmtpSession.LocalMeans | crates/amk-ingest/src/smtp.rs:93-100 | a recipient is local iff what follows its last at-sign equals a configured domain in any case |
| SmtpSession.Answer | crates/amk-ingest/src/smtp.rs:199-357 | one command updates greeted, sender, recipients and host as the session function says, with its reply |
| SmtpSession.RunCommands | crates/amk-ingest/src/smtp.rs:177-357 | whatever the chunking, the loop's trace is the one the bytes determine, or a prefix of it that stops at a line over 15361 bytes |
| SmtpSession.PersistAll | crates/amk-ingest/src/smtp.rs:269-315 | draining the recipients yields the batch trace |
| SmtpSession.BatchMeans | crates/amk-ingest/src/smtp.rs:269-315 | every recipient is handed the same body and envelope, in order and once, and the closing reply carries the last error or 250 |
| SmtpSession.RunConforms | crates/amk-ingest/src/smtp.rs:177-357 | every run is the conversation its bytes demand, told from bytes and history alone: each line is answered positively exactly when due (MAIL after EHLO and within SIZE, RCPT within a mail for a local address that resolves, DATA with an accepted recipient), a body that arrives goes to all recipients accepted since the current MAIL, in order and once, under its envelope, and the run ends where QUIT, STARTTLS or the bytes end it |
| SmtpSession.ServeConforms | crates/amk-ingest/src/smtp.rs:123-169 | a peer that talks first gets 421 and no session; any other is greeted and has one conversation in the clear and, after an upgrade, one over TLS, each as its bytes demand |
| SmtpSession.RunIsSafe | crates/amk-ingest/src/smtp.rs:190-357 | over all byte streams each delivery uses the MAIL and EHLO standing in its TLS phase and a local recipient resolved after that MAIL, and fits the cap |
| SmtpSession.ForeignLookupsAreIrrelevant | crates/amk-ingest/src/smtp.rs:247-268 | two servers whose lookups agree on local addresses behave alike on every byte stream, so relay denial tells nothing of foreign addresses |
| SmtpSession.TlsIsOfferedOnlyInTheClear | crates/amk-ingest/src/smtp.rs:328-346 | over TLS or without a certificate no run advertises or starts TLS, so a connection upgrades at most once |
| SmtpSession.OneDataPerMail | crates/amk-ingest/src/smtp.rs:190-357 | between two accepted DATA of a server's trace stands the accepted MAIL that the second one uses, so none feeds two |
| SmtpSession.ServeSession | crates/amk-ingest/src/smtp.rs:123-169 | the whole connection is the specified one, or a prefix, and always safe |
| SmtpSession.PlaintextBehindTheUpgradeIsDiscarded | crates/amk-ingest/src/smtp.rs:146-169 | bytes buffered in the clear behind STARTTLS are neither parsed nor answered (section 4.2 of RFC 3207) |
| SmtpSession.TlsPhaseDependsOnTlsBytes | crates/amk-ingest/src/smtp.rs:146-169 | when lookup and storage answer by what was stored so far, replies and deliveries after the upgrade are a function of the TLS bytes, the configuration and what was stored |
| Blobs.RunsAreSound | crates/amk-store/src/blobs.rs:143-177 | in every reachable state of interleaved, failing and crashing puts each final path holds bytes that hash to its name |
| Blobs.NothingIsEverCorrupt | crates/amk-store/src/blobs.rs:179-190 | a verifying and a plain read always agree, never meet a corrupt blob, and find none iff its path is not there |
| Blobs.PutIsDurable | crates/amk-store/src/blobs.rs:143-190 | once any put returned an id, that id reads back as the bytes put for ever after |
| Blobs.OpenReadersSeeOneVersion | crates/amk-store/src/blobs.rs:179-190 | contents reached through a final path never change, even when renamed over |
| Blobs.UndisturbedPutSucceeds | crates/amk-store/src/blobs.rs:143-177 | a put without errors or rivals returns its id and reads back, from any reachable state |
| Blobs.FailedRenameDefersToTheRival | crates/amk-store/src/blobs.rs:161-177 | a put whose rename fails removes its temporary file and succeeds iff a rival has published the blob by then |
| Blobs.KnownBlobIsNotWritten | crates/amk-store/src/blobs.rs:143-152 | a put of a blob that is there returns at once and touches no file |
| Blobs.SharedTempNamePublishesATruncatedBlob | crates/amk-store/src/blobs.rs:161 | from every state, two overlapping puts of one non-empty content in one process can publish an empty blob under its id and return that id |
| Blobs.OverlapIsSafeIffEmpty | crates/amk-store/src/blobs.rs:143-177 | from every sound state no further moves behind such an overlap ever publish a corrupt blob iff the content is empty, so the hypothesis of one put in flight is exact |
| Download.DecodeInvertsEncode | crates/amk-core/src/download.rs:58-78 | strict base64url decoding inverts encoding (section 5 of RFC 4648) |
| Download.DecodeIsStrict | crates/amk-core/src/download.rs:69-78 | bytes have no second spelling that decodes to them |
| Download.AlphabetIsUrlSafe | crates/amk-core/src/download.rs:58-78 | the alphabet is the URL-safe one of section 5 of RFC 4648, in its order |
| Download.GroupIsTheSameBits | crates/amk-core/src/download.rs:58-78 | three bytes and their four symbols are the same 24 bits, most significant first |
| Download.Utf8IffScalars | crates/amk-core/src/download.rs:69-78 | a payload is text iff it is the UTF-8 encoding (section 3 of RFC 3629) of Unicode scalar values |
| Download.ParseInvertsPrint | crates/amk-core/src/download.rs:58-90 | a printed expiry parses back iff it fits 64 bits |
| Download.DecimalIsDecimal | crates/amk-core/src/download.rs:58-90 | the digits are read in base ten, most significant first |
| Download.MintThenVerify | crates/amk-core/src/download.rs:58-98 | a minted token verifies iff asked for its own blob before its expiry; another blob is WrongResource whatever the time |
| Download.PayloadsAreInjective | crates/amk-core/src/download.rs:58-62 | distinct grants have distinct signed payloads, colons in blob ids included |
| Download.AcceptedIff | crates/amk-core/src/download.rs:69-98 | a token is accepted iff it is the one spelling of a payload naming this blob with a later expiry and that payload's MAC |
| Download.RefusalsAreOrdered | crates/amk-core/src/download.rs:69-98 | a wrong MAC is a bad signature whatever the payload says; of signed payloads another blob is WrongResource, and only then a past expiry Expired |
| Download.OnlyIssuedTokensPass | crates/amk-core/src/download.rs:69-98 | if only issued payloads carry a valid MAC, an accepted token is an issued, unexpired one for this blob, byte for byte |

## Left out

- RateLimiting.EvictionIsUnobservable: excludes runs that take the fail-open branch, which grants every subject without charging, and takes `f64` as `real` and the clock as non-decreasing in lock order.
- RateLimiting.ChargeBound: assumes a run that avoids the fail-open branch, in which a granted check is charged.
- RateLimiting.AuthFailureBound: assumes the same and speaks of one subject whose failures are sequential; concurrent requests may all be checked before any is penalised.
- SmtpSession.RunCommands: is exact only for streams without lines over 15361 bytes; beyond that only a prefix is promised, because the original's outcome depends on chunking.
- Ingest.AggregatesAreConserved: assumes sizes and member totals below `i64::MAX`, where the cast and the saturating counters do not interfere.
- Ingest.RunsKeepForest: deletions of threads or messages between deliveries are not modelled; neither are they in Races.InterleavingsKeepForest.
- Races.InterleavingsKeepForest: a database call that fails has no effect; one whose commit succeeds while its answer is lost is not modelled.
- Races.CountsAgreeIff: of the aggregates only the count is followed through interleavings; that concurrent row updates lose no size, sender or recipient is RowLock.ThreadUpdatesAreNeverLost.
- Ingest.OrphanOpenedIff: of the database's refusals only the NUL's is decided by content; index row limits (a Message-ID of several thousand characters passes the thread insert and can be refused by the message insert) and other refusals are the injected failures.
- SmtpSession.PlaintextBehindTheUpgradeIsDiscarded: plaintext that is still unread when the upgrade starts reaches the TLS acceptor, which fails on it; the handshake's outcome is an input here.
- Messages.MessageStore.Insert: foreign keys, index row limits and encodings other than the NUL are not modelled.
- Blobs.PutIsDurable: crashes are of processes; contents written but not flushed before a power loss are outside the model, and so is removal of blobs, which the store does not offer.
- `put` is given as steps of a state machine and not as a method, because its claims are about interleavings.
- The organization and pod pins of the ingest lookups are not modelled: an inbox determines both.
- The rate-limit subject derivation, `parse_limit`, include-flag parsing, system-label reporting, and blob id parsing and paths: short, independent checks.
- The thread, pod and inbox listings: the keyset pattern of the messages listing again; thread rows also change their sort key when a member joins.
- `check_thread`, `retain_visible` and fetching a thread with its messages: filters by the verdicts already modelled.
- Message bodies, header maps, attachment blobs, SPF and DKIM verdicts, MIME parsing and hostile-input rejection: a delivery arrives parsed, with the SPF verdict as an input.
- I/O errors of reads, of the socket and of transactions before the duplicate check: they end the operation without effect.
- API key minting, hashing, authentication and its retry loop: cryptography and randomness.
- Reply texts, `fix` strings, metrics, logging and configuration loading.
