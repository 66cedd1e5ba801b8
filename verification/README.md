# Zapfast: a verified model

Zapfast is an HTTP gateway to WhatsApp. This project models the parts of it
that carry real algorithms or protocols, and proves what they promise, in
Dafny 4.11. `dafny verify dfyconfig.toml` checks all of it.

| module | what it models |
|---|---|
| `Bytes`, `WebP`, `WebPProperties` | the sticker metadata injector: a RIFF/WebP chunk parser, the VP8X flag edit, the assembler that back-patches the file size, and the TIFF-shaped EXIF payload |
| `Migrations` | the schema migration runner as a protocol of any number of processes that may fail or crash anywhere, and the code of one process, with the others running between its statements, as a run of it |
| `S3Objects` | object keys, and the paginated loop that deletes all of a user's objects in batches |
| `S3Clients` | the lazily filled S3 client cache against the users table, over whole runs |
| `UserDeletion` | deleting a user together with its stored media |
| `History` | message history: saves and two-statement trims, freely interleaved, against a sliding window per chat, and the secrets trimmed alongside |
| `OpenGraph` | the link preview coordinator: cache, one flight per URL, twenty tokens per user, timeouts, panics, expiry |
| `UserCache` | the user-info cache against the users table, over whole runs of handlers and admin operations |
| `SqlPatch` | the compilation of a partial user update to SQL text and arguments, and what that text means when read back |
| `Text`, `Events`, `ListMenu`, `Decimal`, `WebhookDelivery` | event lists, list menus, the decimal printer, the webhook retry loop |

How the model is built:

- Code that updates things in place is a method or a class, proved against a
  function of its inputs or of its old state; the lemmas are then about that
  function. Protocols are step functions over a state: a run is any sequence
  of steps, and a step that is not possible leaves the state unchanged, so a
  statement over all sequences covers every interleaving.
- The database, the object store, the network, the clock and the image decoder
  are parameters, nondeterministic outcomes, or abstract maps. A SQL statement
  is one atomic step. A PostgreSQL insert that collides with an uncommitted one
  waits; one that collides with a committed one fails.
- Go's `int` is 64 bits. Conversions that truncate (`uint32(len(x))`,
  `uint8(v >> 8)`) and products that can wrap (`time.Duration`) are modelled
  with their truncation; sums of buffer lengths are not, because no buffer is
  that long.
- A chunk tag is held as the 32-bit number its four bytes spell.

What the proofs show about the code that its comments do not say:

- An EXIF payload of 4 GiB or more no longer gets overwritten by the next
  injection, unless what lies beyond its wrapped length reads as EXIF chunks
  (`OverwritesIff`, `OversizedPayloadSurvives`).
- `DeleteAllUserObjects` reports success while leaving behind the objects the
  service refused one by one, because the reply's per-key errors are dropped
  (`CleanIffNothingRefused`, `RefusedKeySurvives`).
- A history trim deletes secrets by message id alone, so it can take the secret
  of another user's surviving message (`OtherUsersSecret`,
  `SharedIdLosesSecret`). Its two statements are not one transaction, so a save
  between them can leave a secret without a row (`SecretLeftBehindIff`),
  but never takes the secret of a row of that user that the trim leaves
  (`InterleavedSurvivorsKeepSecrets`).
- `SetWebhook` and `UpdateWebhook` without events blank the cached event list
  but not the column, `DeleteS3Config` and the plain admin delete leave the
  cache stale, and `Connect` writes the cache even when its UPDATE failed; each
  with the exact condition under which it does no harm.
- The caches rely on each request running as one step: overlapping requests can
  leave the S3 client and its row different, or bring a revoked token back
  (`OverlappingConfigureAgreesIff`, `LateEntryIff`, `LateFillIff`, each with the
  exact condition).
- Deleting a user sweeps its media only if a client happens to be cached: after
  a restart nothing is swept until something uses S3 for that user
  (`SweepsIffUsed`).
- With a retry count of zero or less the webhook loop posts nothing and reports
  no failure (`Deliver`).

## Model

| member | source | states |
|---|---|---|
| `Bytes.U32OfLE32` | cmd/api/helpers.go:912-912 | reading a length undoes writing it, modulo 2^32 |
| `Bytes.U32IsPositional` | cmd/api/helpers.go:912-912 | a length field is the little-endian value of its four bytes |
| `WebP.FourCCBytes` | cmd/api/helpers.go:899-903 | the tag numbers are the ASCII tags RIFF, WEBP, VP8X and EXIF |
| `WebP.WalkAccepts` | cmd/api/helpers.go:905-933 | every well-laid chunk sequence, including a missing last pad byte and up to seven stray bytes, is read as exactly those chunks |
| `WebP.WalkReads` | cmd/api/helpers.go:905-933 | whatever is accepted is well laid and prints back to every byte of the input |
| `WebP.WalkExact` | cmd/api/helpers.go:905-933 | reader and chunk grammar agree in both directions |
| `WebP.WalkCutIff` | cmd/api/helpers.go:910-917 | a file is refused, with that tag, exactly when after some whole chunks a header with that tag declares more bytes than there are |
| `WebP.ParseWebPChunks` | cmd/api/helpers.go:905-933 | the loop returns the zero-padded copies of all non-EXIF chunks and the index of the last VP8X of at least ten bytes, or the tag of the first truncated chunk |
| `WebP.KeepSplit` | cmd/api/helpers.go:922-929 | keeping chunks works chunk by chunk, in order |
| `WebP.KeepOne` | cmd/api/helpers.go:922-929 | an EXIF chunk is dropped, any other is copied with a zero pad byte |
| `WebP.LastCanvasIs` | cmd/api/helpers.go:919-921 | the selected index is the last chunk tagged VP8X with at least ten payload bytes, or -1 when there is none |
| `WebP.ParseYieldsEditable` | cmd/api/helpers.go:922-929 | everything returned is a whole chunk (8 + size + pad bytes, pad zero) and not EXIF |
| `WebP.CanvasHasFlags` | cmd/api/helpers.go:935-939 | the flag edit never indexes out of bounds |
| `WebP.WithExifFlag` | cmd/api/helpers.go:937-937 | the flag operation sets bit 3 and keeps the other seven |
| `WebP.PutUint24LE` | cmd/api/helpers.go:953-957 | exactly three bytes of the buffer change, to the low 24 bits of the value |
| `WebP.CreateVP8XChunk` | cmd/api/helpers.go:943-951 | the chunk built in place is the VP8X layout of section 2.7 of RFC 9649 with only the EXIF flag |
| `WebP.U24OfLE24` | cmd/api/helpers.go:953-957 | 24-bit values read back |
| `WebP.EnsureVP8XWithEXIF` | cmd/api/helpers.go:935-941 | flags the selected VP8X or prepends a new one |
| `WebP.AssembleWebP` | cmd/api/helpers.go:959-985 | the appended and back-patched buffer is header, size, chunks, EXIF chunk |
| `WebP.WriteChunk` | cmd/api/helpers.go:976-985 | appends tag, size, data and a pad byte |
| `WebP.InjectFailsIff` | cmd/api/helpers.go:879-897 | each of the three errors exactly when: no RIFF/WEBP header, no decodable image, a chunk that does not fit |
| `WebP.InjectWebPEXIF` | cmd/api/helpers.go:879-897 | the whole operation with its three error cases |
| `WebP.BuildWhatsAppEXIF` | cmd/api/helpers.go:854-877 | field by field: little-endian marker, directory at 8, one entry, tag 0x5741 of type 7, the length of the JSON modulo 2^32, offset 22, then the JSON |
| `WebPProperties.WalkAssembled` | cmd/api/helpers.go:959-985 | an assembled file walks back to its chunks and one EXIF chunk |
| `WebPProperties.ParseAssembled` | cmd/api/helpers.go:905-985 | the parser undoes the assembler for every list of whole non-EXIF chunks and every payload under 2^32 bytes |
| `WebPProperties.NewCanvasShape` | cmd/api/helpers.go:943-951 | a new VP8X chunk is whole, is selected by the parser, and holds the given 24-bit fields |
| `WebPProperties.WithCanvasFlags` | cmd/api/helpers.go:935-941 | after the edit a flagged VP8X exists and the parser would select it again |
| `WebPProperties.ParseSpilled` | cmd/api/helpers.go:905-985 | what the parser makes of an assembled file for a payload of any size: the chunks, then whatever the bytes beyond the wrapped length read as |
| `WebPProperties.OverwritesIff` | cmd/api/helpers.go:879-985 | for payloads of any size, injecting e2 after e1 equals injecting e2 directly, byte for byte, exactly when the decoder accepts the intermediate file and the bytes e1 leaves beyond its 32-bit length read as EXIF chunks only |
| `WebPProperties.InjectOverwrites` | cmd/api/helpers.go:879-974 | below 4 GiB the second injection replaces the first exactly when the decoder accepts the intermediate file |
| `WebPProperties.InjectChangesOnlyFlag` | cmd/api/helpers.go:905-974 | non-EXIF chunks stay, in order, but for bit 3 of the selected flags byte, or gain one VP8X with the right canvas |
| `WebPProperties.InjectSizes` | cmd/api/helpers.go:959-974 | the result has even length and its RIFF field is length - 8, modulo 2^32 |
| `WebPProperties.FollowEntry` | cmd/api/helpers.go:854-877 | a TIFF reader finds one directory entry, tag 0x5741 of type 7, whose value is the JSON |
| `WebPProperties.MetadataReadsBack` | cmd/api/helpers.go:854-985 | the last chunk of the result, and no other, is tagged EXIF, nothing follows it, and a TIFF reader finds in it one entry, tag 0x5741 of type 7, whose value is the JSON |
| `WebPProperties.OversizedPayloadSurvives` | cmd/api/helpers.go:976-985 | for payloads of 4 GiB and more a second injection differs, unless the bytes at the wrapped end spell EXIF |
| `Migrations.DoKeepsInv` | cmd/api/migrations.go:227-321 | every step of every process keeps log, table and process phases consistent |
| `Migrations.CommitExtends` | cmd/api/migrations.go:299-321 | a committing process is always at the end of the log |
| `Migrations.MigrationSafety` | cmd/api/migrations.go:227-321 | over any interleaving, fault or crash: recorded migrations are a prefix, none commits twice, none is lost, and nil means all recorded |
| `Migrations.CrashEnds` | cmd/api/migrations.go:304-308 | a crash or an error rolls back: the database is unchanged and the process never acts again |
| `Migrations.ShippedMigrationSafety` | cmd/api/migrations.go:17-73 | the shipped list has distinct ids, so a finished process means migrations 1 to 9 in order |
| `Migrations.RestartCompletes` | cmd/api/migrations.go:227-246 | after any history a fresh undisturbed process finishes and leaves everything applied |
| `Migrations.ApplyMigration` | cmd/api/migrations.go:299-321 | begin, SQL, insert, commit, each with its failure and with other processes in between, is a run of the machine; it fails only because a statement failed, and undisturbed it commits an id that is neither recorded nor held |
| `Migrations.Handle` | cmd/api/migrations.go:237-243 | one turn of the loop: an applied migration is skipped without fail, any other is applied |
| `Migrations.Database.Others` | cmd/api/migrations.go:227-321 | any finite sequence of steps of other processes, which leaves this process where it stands |
| `Migrations.Database.CreateTable` | cmd/api/migrations.go:267-275 | fails when another process has created the table since the check |
| `Migrations.Database.InsertId` | cmd/api/migrations.go:314-318 | waits for an open transaction that holds the id, and fails on a committed one |
| `Migrations.Database.CommitTransaction` | cmd/api/migrations.go:320-320 | a commit happens, happens unacknowledged, or does not happen |
| `Migrations.Snapshot` | cmd/api/migrations.go:248-297 | table creation and snapshot, with other processes in between, are a run of the machine; undisturbed they succeed and the snapshot is exact |
| `Migrations.InitializeSchema` | cmd/api/migrations.go:227-246 | every execution, with any steps of other processes between its statements, is a run in which this process ends in Done on nil and in Failed on error; it returns an error exactly when one of its statements did; from a consistent world the database stays consistent, nothing is lost, and nil means every migration is recorded in order; undisturbed it returns nil, whatever was applied before |
| `S3Objects.KeyNames` | cmd/api/s3manager.go:171-245 | taken apart at its slashes a key is users, the user, inbox or outbox, the contact, the date, the kind of media, and the message id with an extension |
| `S3Objects.CleanContactAt` | cmd/api/s3manager.go:178-180 | cleaning a contact replaces each @ and : by _ and nothing else |
| `S3Objects.KeyBelongsToOneUser` | cmd/api/s3manager.go:171-245 | a generated key lies under the deletion prefix of its own user and of no other (ids without '/') |
| `S3Objects.KeyUnderPrefixIff` | cmd/api/s3manager.go:232-242 | for ids of any shape, exactly when a key of v falls under the deletion prefix of u |
| `S3Objects.SlashInIdLeaksDeletion` | cmd/api/s3manager.go:386-386 | with '/' in ids the separation fails: deleting u reaches every user named u/w |
| `S3Objects.Bucket.ListObjectsV2` | cmd/api/s3manager.go:391-399 | what is assumed of the listing service: pages of at most 1000 keys, a token that moves forward |
| `S3Objects.Bucket.DeleteObjects` | cmd/api/s3manager.go:405-411 | what is assumed of the deletion service: 1 to 1000 keys a call, per-key refusals, partial effect on error |
| `S3Objects.SweepPage` | cmd/api/s3manager.go:401-415 | the inner loop keeps every key met either sent in a full batch or waiting |
| `S3Objects.DeleteAllUserObjects` | cmd/api/s3manager.go:380-436 | terminates, and succeeds whenever a client is cached and no service call fails; on success every key under the prefix was requested, in order, in batches of 1000 and a shorter last one, and the prefix is empty exactly when nothing under it was refused; on failure nothing outside the prefix was touched |
| `S3Objects.RequestedOnce` | cmd/api/s3manager.go:401-434 | no key is requested twice |
| `S3Objects.DeletionIsExact` | cmd/api/s3manager.go:380-436 | after deleting u, u's media is gone and v's is not |
| `S3Objects.CleanIffNothingRefused` | cmd/api/s3manager.go:405-411 | the prefix is empty afterwards exactly when nothing under it is refused |
| `S3Objects.RefusedKeySurvives` | cmd/api/s3manager.go:405-411 | after every success an object of the user remains exactly when the service refused its key |
| `S3Clients.ApplyKeepsAgreement` | cmd/api/s3manager.go:60-168 | every operation keeps cached clients in agreement with the table |
| `S3Clients.RunKeepsAgreement` | cmd/api/handlers.go:5618-5905 | in every reachable state a cached client of an existing user was built from its current columns |
| `S3Clients.EnsureIsExact` | cmd/api/s3manager.go:60-100 | EnsureClientFromDB is true for an existing user exactly when the row is enabled, and then the client has the row's endpoint, region and credentials and its bucket |
| `S3Clients.DeletedUserKeepsClient` | cmd/api/handlers.go:5350-5365 | deleting a user leaves its client cached |
| `S3Clients.ReusedIdAgreesIff` | cmd/api/migrations.go:219-225 | after any run, giving a deleted user's id to a new row keeps the agreement exactly when no client is left for it or the row asks for the same store |
| `S3Clients.OverlappingConfigureAgreesIff` | cmd/api/handlers.go:5653-5696 | two overlapping ConfigureS3 calls leave row and client in agreement exactly when the one whose client stays was disabled or for the same store |
| `S3Clients.ClientIffUsed` | cmd/api/s3manager.go:60-168 | over whole runs, an enabled user has a client exactly when something has used S3 for that user since the process started |
| `S3Clients.Manager.InitializeS3Client` | cmd/api/s3manager.go:103-148 | installs a client with the config's endpoint, region and credentials, or removes both entries when disabled, for this user only; for the row as it is now this restores the agreement |
| `S3Clients.Manager.RemoveClient` | cmd/api/s3manager.go:151-157 | drops client and config of one user only and keeps the agreement |
| `S3Clients.Manager.GetClient` | cmd/api/s3manager.go:160-168 | found exactly when both maps have the user; in agreement the client has its row's endpoint, region and credentials |
| `S3Clients.Manager.EnsureClientFromDB` | cmd/api/s3manager.go:60-100 | in agreement, true for an existing user exactly when the row is enabled and a client is cached or the database can be read; keeps the agreement |
| `S3Clients.Manager.ConfigureS3` | cmd/api/handlers.go:5653-5696 | row and client written together from the request, nothing on a failed UPDATE; keeps the agreement |
| `S3Clients.Manager.TestS3Connection` | cmd/api/handlers.go:5800-5843 | goes on exactly for an enabled row that could be read, then with that row's client; keeps the agreement |
| `S3Clients.Manager.DeleteS3Config` | cmd/api/handlers.go:5870-5895 | resets each S3 column to its default and removes the client, nothing on a failed UPDATE; keeps the agreement |
| `S3Clients.Manager.UpdateUser` | cmd/api/users_adapter.go:59-81 | after an accepted patch with a config the row is that config and the client is built from it, or gone when disabled; keeps the agreement |
| `UserDeletion.DeleteUserComplete` | cmd/api/handlers.go:5341-5388 | the bucket is swept, to the end if the service works, exactly when S3 is on and a client is cached; otherwise no object is touched, and the caller is told of success either way |
| `UserDeletion.SweepsIffUsed` | cmd/api/handlers.go:5350-5381 | over whole runs, deleting a user sweeps its media exactly when S3 is on and something has used S3 for that user since the process started |
| `UserDeletion.EnsuringFirstSweeps` | cmd/api/s3manager.go:60-100 | had the client been ensured first, being enabled would decide alone |
| `History.RankIsDistance` | cmd/api/db.go:104-111 | with increasing timestamps a row's rank is its distance from the end |
| `History.TrimKeepsNewest` | cmd/api/db.go:104-111 | a trim leaves exactly the newest rows of its chat and no other chat changes |
| `History.DoKeepsInv` | cmd/api/db.go:93-131 | every save, trim statement or failed trim keeps each chat a window |
| `History.HistoryIsWindow` | cmd/api/wmiau.go:1090-1108 | over any interleaving each chat is a suffix of its inserts, has the newest min(limit, k), and exceeds the limit by at most the trims owed or given up |
| `History.QuiescentChatIsExact` | cmd/api/handlers.go:6144-6156 | with no trim outstanding a chat holds exactly its newest min(limit, k) inserts |
| `History.SaveThenTrim` | cmd/api/db.go:93-131 | a new message is inserted and its undisturbed trim ends with the newest rows of its chat, every other chat as it was, the secrets of the rows pushed out gone and nothing owed |
| `History.TrimRecovers` | cmd/api/db.go:126-128 | one completed trim restores the limit after failed ones |
| `History.SecretsMatchDeletedRows` | cmd/api/db.go:113-124 | an uninterrupted trim removes exactly the secrets of the rows it deletes |
| `History.SurvivorsKeepSecrets` | cmd/api/migrations.go:161-173 | by the unique constraint the user's surviving rows keep their secrets |
| `History.OtherUsersSecret` | cmd/api/db.go:113-120 | when another user's surviving row loses its secret, in both directions |
| `History.SharedIdLosesSecret` | cmd/api/db.go:113-120 | in any table, whenever a trimmed row shares its message id with another user's row, that row stays and its secret goes |
| `History.SharedIdExample` | cmd/api/db.go:113-120 | the smallest such table |
| `History.TakenRowsGo` | cmd/api/db.go:122-128 | with anything at all running between a trim's two statements, the rows whose secrets the first takes are gone after the second |
| `History.InterleavedSurvivorsKeepSecrets` | cmd/api/db.go:113-128 | so under every interleaving a row of that user which the trim leaves kept its secret through it |
| `History.GoneIffOvertaken` | cmd/api/db.go:126-128 | a completed trim deletes a row exactly when the limit's number of inserts have overtaken it |
| `History.SecretStaysIff` | cmd/api/db.go:122-124 | a trim's first statement leaves a row's secret exactly when the row is within the limit |
| `History.SecretLeftBehindIff` | cmd/api/db.go:113-128 | under every interleaving, a trim deletes a row and yet left its secret exactly when the row was within the limit at the first statement and the inserts up to the second push it out |
| `History.InterleavedSaveLeavesSecret` | cmd/api/db.go:113-128 | one save between the two statements into a full chat is enough |
| `History.Store.SaveMessage` | cmd/api/db.go:93-101 | one insert; on a working database refused exactly on a repeated (user, message id) |
| `History.Store.TrimMessageHistory` | cmd/api/db.go:103-131 | secrets first, then rows; what is left after each failure |
| `History.Store.SaveOutgoing` | cmd/api/handlers.go:6144-6156 | on a working database saves and trims exactly for a positive limit and a new message id; save then trim ends in the newest window, takes the secrets of the rows pushed out and touches no other chat |
| `OpenGraph.DoKeepsInv` | cmd/api/helpers.go:159-215 | every step of every call keeps flights, tokens, results and answers consistent |
| `OpenGraph.AcquireKeepsInv` | cmd/api/helpers.go:173-175 | taking a token never exceeds twenty |
| `OpenGraph.ReleaseKeepsInv` | cmd/api/helpers.go:176-176 | giving a token back never blocks and balances the books |
| `OpenGraph.FinishKeepsInv` | cmd/api/helpers.go:168-203 | everyone blocked on the flight gets its outcome, no other call changes, and the URL becomes free |
| `OpenGraph.CoordinatorSafety` | cmd/api/helpers.go:81-215 | one flight per URL, tokens equal running fetches and stay within twenty, previews are genuine, joiners agree |
| `OpenGraph.LookUpAnswers` | cmd/api/helpers.go:160-166 | a cached URL is answered at once with the cached preview, any other goes on |
| `OpenGraph.EnterJoinsOrLeads` | cmd/api/helpers.go:168-168 | a call joins the flight for its URL if there is one, else opens one under its own user |
| `OpenGraph.AcquireStartsIff` | cmd/api/helpers.go:173-175 | a waiting flight starts fetching exactly when its user has fewer than twenty fetches running |
| `OpenGraph.FetchIsCached` | cmd/api/helpers.go:197-203 | a completed fetch is cached under its URL |
| `OpenGraph.CacheKept` | cmd/api/helpers.go:101-102 | a cached preview stays until it expires or is fetched again |
| `OpenGraph.ExpireForgets` | cmd/api/helpers.go:102-102 | an expired URL is forgotten, and only that |
| `OpenGraph.OutcomeIffDecided` | cmd/api/helpers.go:168-203 | over every run, a flight ends with preview p exactly when its fetch completed with p, and with nothing exactly when it timed out waiting or panicked |
| `OpenGraph.AnswerIffFetched` | cmd/api/helpers.go:205-215 | over every run, a call answered by a flight gets p exactly when that flight's fetch completed with p |
| `OpenGraph.NoTokenLeaks` | cmd/api/helpers.go:172-195 | with no flight in progress every pool is empty |
| `OpenGraph.FlightsCanAlwaysEnd` | cmd/api/helpers.go:168-195 | from any phase a flight's own exits end it within three steps and answer everyone |
| `UserCache.FillTracksAction` | cmd/api/handlers.go:220-565 | for each handler that writes both sides, filling from the new row equals the updated entry |
| `UserCache.ApplyKeeps` | cmd/api/users_adapter.go:51-58 | every such request and admin operation keeps the cache coherent |
| `UserCache.CacheCoherence` | cmd/api/handlers.go:141-217 | over whole runs each cached token leads to a row holding it with equal webhook, events, proxy, history, S3 switch and delivery |
| `UserCache.RequestIsServed` | cmd/api/handlers.go:159-216 | a request is served exactly when its token is cached or a row has it |
| `UserCache.ItoaReadsBack` | cmd/api/handlers.go:177-180 | a printed history limit reads back |
| `UserCache.CoherentIffEntryMatches` | cmd/api/helpers.go:218-222 | after any handler, coherence is decided by the entry it wrote |
| `UserCache.SetWebhookWithoutEvents` | cmd/api/handlers.go:543-555 | harmless exactly when the cached event list was empty |
| `UserCache.UpdateWebhookWithoutEvents` | cmd/api/handlers.go:475-487 | harmless exactly when the cached event list was empty |
| `UserCache.DeleteS3ConfigStale` | cmd/api/handlers.go:5870-5905 | harmless exactly when the cached entry already says disabled and base64 |
| `UserCache.ConnectSqlFailure` | cmd/api/handlers.go:269-275 | harmless exactly when the event list did not change |
| `UserCache.DisconnectSqlFailure` | cmd/api/handlers.go:323-329 | harmless exactly when the event list was already empty |
| `UserCache.HandledCoherentIff` | cmd/api/handlers.go:220-565 | for every handler, with its UPDATE succeeding or failing, exactly when the cache stays coherent, read off the request and the cached entry |
| `UserCache.AdminDeleteStale` | internal/users/users.go:254-256 | harmless exactly when the user is not cached |
| `UserCache.GoneCoherentIff` | cmd/api/handlers.go:5350-5365 | when a row and some entries are dropped, exactly when the rest is coherent |
| `UserCache.LateEntryIff` | cmd/api/handlers.go:200-202 | a request that outlives an admin update and then writes its entry leaves the cache coherent exactly when that entry is what the patched row fills |
| `UserCache.LateHandlerIff` | cmd/api/handlers.go:269-275 | the same when the request's UPDATE comes after the admin's as well |
| `UserCache.LateFillIff` | cmd/api/handlers.go:200-202 | for authentication's own entry: harmless exactly when the patch changes no cached field; a new token never is |
| `UserCache.PatchedRowFollowsPatch` | internal/users/users.go:367-410 | the patch as the cache sees it agrees with the compiled UPDATE, column by column |
| `UserCache.KeepSupported` | cmd/api/handlers.go:449-460 | the stored list is the supported events, repetitions kept |
| `UserCache.Server.Authalice` | cmd/api/handlers.go:141-217 | a cached token is let in as it is; otherwise exactly a token some row has, and each cached field then equals its column, with the defaults for NULL; keeps coherence |
| `UserCache.Server.StartOne` | cmd/api/wmiau.go:249-269 | one row of the startup loop: the user's entry is set field by field from its row; keeps coherence |
| `UserCache.Server.GetHistory` | cmd/api/handlers.go:5908-5921 | a cached limit of zero drops the entry, any other leaves it; keeps coherence |
| `UserCache.Server.Connect` | cmd/api/handlers.go:243-275 | refused when already connected; otherwise the events of the entry, and of the row unless the UPDATE failed, become the stored list and nothing else changes; exactly when that breaks coherence |
| `UserCache.Server.Disconnect` | cmd/api/handlers.go:316-335 | refused without a connected session; otherwise the events of entry and row become empty, the session goes, and nothing else changes; exactly when that breaks coherence |
| `UserCache.Server.DeleteWebhook` | cmd/api/handlers.go:400-415 | webhook and events cleared in row and entry, nothing else; nothing on a failed UPDATE; keeps coherence |
| `UserCache.Server.SetWebhook` | cmd/api/handlers.go:500-555 | webhook and, when given, the supported events in row and entry; without events the entry's are blanked and the row's kept; exactly when that breaks coherence |
| `UserCache.Server.UpdateWebhook` | cmd/api/handlers.go:428-487 | the same, with both blanked when inactive; exactly when that breaks coherence |
| `UserCache.Server.SetHistory` | cmd/api/handlers.go:5469-5503 | refused without a session or for a negative limit; otherwise the column is the limit and the cached numeral reads back as it; keeps coherence |
| `UserCache.Server.SetProxy` | cmd/api/handlers.go:5530-5602 | refused while connected or for an unusable URL; otherwise row and entry get the URL when enabling and the empty string when disabling; keeps coherence |
| `UserCache.Server.ConfigureS3` | cmd/api/handlers.go:5643-5717 | refused for an unknown delivery; otherwise row and entry get the switch and the delivery, base64 by default; keeps coherence |
| `UserCache.Server.DeleteS3Config` | cmd/api/handlers.go:5870-5895 | resets the two columns, leaves the cache; exactly when that breaks coherence |
| `UserCache.Server.CreateUser` | internal/users/users.go:261-315 | accepted exactly for supported events and a token nobody has; the row then holds each field of the request; keeps coherence |
| `UserCache.Server.UpdateUser` | internal/users/users.go:327-365 | accepted exactly for an existing user, supported events and a patch that changes something; then each field is the patch's where it has one and the entries of the old and the new token are dropped; keeps coherence |
| `UserCache.Server.DeleteUserComplete` | cmd/api/handlers.go:5324-5365 | row and cache entry removed; when reading the token failed, exactly when a stale entry remains |
| `SqlPatch.BuildUpdateFields` | internal/users/users.go:367-410 | the appended list is the patched columns in column order with their patch values |
| `SqlPatch.PatchedSound` | internal/users/users.go:367-410 | every field is a patched column with its patch value |
| `SqlPatch.PatchedComplete` | internal/users/users.go:367-410 | every patched column is a field |
| `SqlPatch.PatchedDistinct` | internal/users/users.go:367-410 | no column is listed twice |
| `SqlPatch.NoFieldsIffNoPatch` | internal/users/users.go:344-347 | an update is refused as empty exactly when the patch changes no column |
| `SqlPatch.PrintUpdate` | internal/users/postgres.go:142-163 | the builder loop prints UPDATE users SET, the assignments and WHERE id = $n, and collects the values and the id in that order; an empty list is refused |
| `SqlPatch.ItemIs` | internal/users/postgres.go:148-156 | one assignment: a comma unless first, the column, = $ and its number |
| `SqlPatch.ReadPrinted` | internal/users/postgres.go:146-161 | the printed text reads back as one assignment per field, numbered in order, and the row key last |
| `SqlPatch.PrintedUpdateMeaning` | internal/users/postgres.go:142-163 | for any distinct identifiers, executing the text changes only row id, as listed |
| `SqlPatch.CompilationPreservesMeaning` | internal/users/users.go:327-410 | for every patch that changes something, executing the compiled text leaves all other rows alone; in row id each column, by its SQL name, has the value of its input field or stays, and an S3 config is spelled by its ten columns |
| `SqlPatch.StoreReadsOne` | internal/users/users.go:395-408 | ten S3 columns spell at most one config, so that config reads back |
| `Text.SplitOfJoin` | cmd/api/handlers.go:268-268 | splitting undoes joining for parts without the separator |
| `Text.JoinOfSplit` | cmd/api/wmiau.go:129-129 | joining undoes splitting, and no part holds the separator |
| `Text.TrimSpaceIs` | cmd/api/wmiau.go:135-135 | trimming removes spaces, only spaces, and all of them, at both ends |
| `Events.Find` | cmd/api/helpers.go:106-113 | true exactly for members |
| `Events.SupportedIsClean` | cmd/api/constants.go:4-76 | every supported name is a word: nothing to trim, no comma |
| `Events.StoreSubscription` | cmd/api/handlers.go:252-268 | the loop stores the supported events of the request once each |
| `Events.KeptKeepsFirsts` | cmd/api/handlers.go:252-267 | what is stored has no repetitions and follows first appearance |
| `Events.StoredSplits` | cmd/api/handlers.go:268-268 | the stored string is the kept events with a comma between each two |
| `Events.ReadSubscription` | cmd/api/wmiau.go:129-142 | the dispatcher's loop is split, trim, drop blanks, filter |
| `Events.NonBlankSplit` | cmd/api/wmiau.go:134-136 | trimming and dropping blanks works part by part |
| `Events.NonBlankOne` | cmd/api/wmiau.go:135-136 | a part is trimmed, and dropped when blank |
| `Events.FilterSplit` | cmd/api/wmiau.go:136-138 | filtering works part by part |
| `Events.FilterOne` | cmd/api/wmiau.go:136-138 | a part stays exactly when it is supported |
| `Events.SubscriptionRoundTrip` | cmd/api/wmiau.go:114-148 | for every request the dispatcher subscribes to exactly the supported events, deduplicated, in order |
| `Events.JoinedReadsBack` | cmd/api/handlers.go:449-460 | what the webhook handlers store is read back as the supported events, repetitions included |
| `Events.ListsAgree` | internal/users/users.go:672-687 | the admin API's own list and the dispatcher's list name the same events |
| `Events.ValidateEvents` | internal/users/users.go:692-706 | accepts exactly the strings whose non-blank parts are all on the admin API's list, and names an offender otherwise |
| `Events.ValidIffNothingLost` | internal/users/users.go:672-706 | accepted by the admin API's list exactly when the dispatcher, with its own list, loses no non-blank event |
| `ListMenu.BuildRows` | cmd/api/handlers.go:2332-2350 | the row loop |
| `ListMenu.BuildSections` | cmd/api/handlers.go:2325-2388 | both modes of section building |
| `ListMenu.SectionsSplit` | cmd/api/handlers.go:2325-2358 | sections are built one by one, in order |
| `ListMenu.SectionIs` | cmd/api/handlers.go:2328-2357 | a section without usable rows is dropped; a blank title is left out, any other trimmed |
| `ListMenu.FlatIsOneSection` | cmd/api/handlers.go:2359-2388 | the flat mode is the section mode with one section titled TopText or "Menu" |
| `ListMenu.RowIdIsFirst` | cmd/api/handlers.go:2314-2322 | the row id is the first of the four spellings that is not blank, trimmed, else the trimmed title |
| `ListMenu.RowsAreUsableItems` | cmd/api/handlers.go:2314-2350 | rows are exactly the items with a non-blank title, in order, each with its id, trimmed title and trimmed description if any; no id is blank |
| `Decimal.NumeralIsCanonical` | internal/httpmw/cors.go:104-116 | a numeral has no leading zero and the right value |
| `Decimal.NumeralIsUnique` | internal/httpmw/cors.go:104-116 | it is the only such string |
| `Decimal.StrIntoa` | internal/httpmw/cors.go:104-116 | prints every non-negative 64-bit int without leaving its 20-byte buffer, and "" for a negative one |
| `WebhookDelivery.Deliver` | cmd/api/helpers.go:235-347 | posts at most once without retries and at most the retry count with them, stops at the first status 200 to 299, fails exactly when the last post did not get one, sleeps the computed delays; posts nothing for a count of zero or less |
| `WebhookDelivery.DelayExactIffItFits` | cmd/api/helpers.go:387-391 | a delay is the intended one exactly while that fits in 63 bits |
| `WebhookDelivery.NoOverflowWithin` | cmd/api/helpers.go:248-251 | no delay overflows, each being d * 10^9 * 2^(k-1) nanoseconds, while the longest one fits |
| `WebhookDelivery.SleepsTotal` | cmd/api/helpers.go:385-399 | the sleeps the loop makes before attempt k add up to d * 10^9 * (2^k - 1) nanoseconds while none overflows |

## Left out

- WebPProperties.FollowEntry: always follows the value offset; a strict TIFF reader would take a value of at most four bytes from the entry itself, which no sticker metadata is short enough for.
- Migrations.MigrationSafety: starts from a database whose recorded migrations are already a prefix of the list; a table edited by hand or written by a newer version is not covered.
- S3Objects.KeyNames: says nothing of the file extension, which is a table of its own, and takes the date strings as parameters.
- S3Objects.DeleteAllUserObjects: assumes that nothing is uploaded while the deletion lists and deletes.
- History.HistoryIsWindow: assumes one fixed limit and, within each chat, timestamps that increase in insert order; history-sync saves, which insert without trimming, are not steps.
- UserCache.CacheCoherence: a request (authentication and handler) is one step; `LateEntryIff` and `LateHandlerIff` show what else can happen. Go's sharing of one `Values` map between cache and request context is not modelled apart from that.
- S3Clients.RunKeepsAgreement: handlers run as one step; `OverlappingConfigureAgreesIff` shows what else can happen.
- NULL in `webhook`, `events` or `proxy_url` and in the S3 text columns is not modelled; NULL `history`, `s3_enabled` and `media_delivery` are.
- UserCache.Server.StartOne: the startup loop around it, which stops at the first row it cannot scan, and the clients it starts are not modelled.
- Cached fields that mirror no checked column (name, JID, QR code, HMAC state) are not modelled.
- The image decoder, JSON marshalling, ffmpeg conversion and thumbnails are not part of this model.
- The WhatsApp client, its session supervisor and the kill channels are not part of this model.
- UserCache.Server.CreateUser: the HMAC key, its length test and its encryption are not modelled; a failure there counts as a failed statement.
- HMAC signing, encryption, token comparison, address filtering and CORS policy are not part of this model.
- Public URL construction, health checks, routing and JSON envelopes would only add easy members.
