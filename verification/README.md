# Secrets Manager: a verified model

A Dafny 4.11 model of the secrets server, its offline-caching client and the
encodings of its crypto crate, with proofs of what they promise over every input,
run and interleaving. `dafny verify dfyconfig.toml` checks everything.

## What is modelled

- **Text and crypto.** A Rust `String` is its UTF-8 octets. Cryptography is ideal:
  a key is the passphrase, salt and parameters it was derived from, a ciphertext
  remembers key, nonce, associated data and payload and opens only on a match
  (RFC 5116, section 2), a digest remembers what was hashed. Nonces, salts, fresh
  tokens and clocks are inputs. Times are integers; an expiry that does not parse
  counts as expired.
- **Tables** (`Repo`, `Connections`). Each SQLite table is the sequence of its rows
  in row-id order; statements act on it as SQL does. `Connections.Connection` updates
  them in place with one transaction at a time.
- **Keys** (`CryptoState`, `KeyCommands`). Initialisation, verification and rotation,
  with a failing statement anywhere in a transaction.
- **Requests** (`Protocol`, `Handlers`, `Server`) and their specification, a plain map
  from project to key to value and version (`Store`, `History`). `Refinement` relates
  the two. `Access` and `Answers` say who is let through and what every request answers in
  terms that mention neither; `Isolation` is about scoped tokens.
- **Two sections a request** (`Admission`, `ScopedRuns`). A request is admitted in one locked
  section and served in another; who is served, what a revocation in between does, and what
  scoped tokens can touch under every interleaving.
- **The system over time** (`Lifecycle`). Server, rotation and token commands are
  processes sharing the database, the lock file and SQLite's write lock; they advance
  one database statement at a time in any order and may be killed at any point.
  A transaction reads its snapshot, writes a private copy, and may write only while
  its snapshot is current. `KeyAgreement` and `Reachability` prove one inductive
  invariant and its consequences; `Progress` shows that undisturbed commands get where
  they should; `Provenance` adds an outsider who moves stored
  blobs about; `EndToEnd` joins server and client.
- **The client** (`Cache`, `CacheSharing`, `ClientApi`, `PrivateFile`, `Dotenv`) and the audit log's
  truncation (`AuditLog`, `Utf8`).

Methods and classes follow the code where it changes state step by step; each is
proved against a function, and the lemmas are about that function.

## Where code and documentation differ

The model follows the code.

- docs/API.md:103-104 calls the version monotonic. Between two puts of a key the versions
  answered rise throughout if and only if no delete of it succeeded in between
  (`History.MonotonicIffNoDelete`, in runs `Reachability.MonotonicInRuns`); a put after a
  delete answers 1 (`History.VersionRestarts` is such a run).
- `verify` never compares the decrypted verifier with the sentinel; the proof shows it
  need not (`Provenance.VerifiedSentinel`).
- The bounds on stored KDF parameters admit triples Argon2 rejects. An admitted triple can be
  derived from exactly when m is at least 8p (`CryptoState.DerivableExactly`); on the others
  every start fails and changes nothing (`CryptoState.VerifyStopsExactly`,
  `CryptoState.SupportedButUnderivable`, `KeyCommands.InitOrVerify`).
- `rekey_with_params` checks no bounds: the database it leaves is usable if and only if the
  new parameters are within them (`KeyCommands.RekeyWithParams`, `CryptoState.PlanVerifies`),
  which the only public caller's are (`CryptoState.StrongIsUsable`).
- Lengths are cast to 32 bits, so the record encoding is injective exactly while fields are
  shorter than 2^32 octets (`Encoding.AadInjectiveExactly`, `Encoding.AadCollidesAtTwo32`).
- A request is authenticated in one locked section and served in another. A token revoked in
  between still serves exactly the requests that were waiting with it
  (`Admission.RevocationGap`, `Admission.AdmittedSurvivesRevocation`).
- The client reads at most 1 MiB of a response, a cap the server does not keep to: it accepts
  values that together exceed it, and the client then refuses the answer. It accepts an
  answer exactly when its encoding is within the cap (`EndToEnd.ClientAcceptsAnswers`,
  `EndToEnd.AnswerBeyondCap`).
- `create_token` has an error for an expiry it cannot format, but without the `large-dates`
  feature (Cargo.toml:44) the addition before it panics once the year passes 9999, so the
  request ends unanswered (`Refinement.NeverInternal`).

## Model

| member | source | states |
|---|---|---|
| Encoding.AadInjective | crates/secrets-crypto/src/lib.rs:130-142 | the length-prefixed record encoding is injective on fields shorter than 2^32 octets |
| Encoding.AadCollidesAtTwo32 | crates/secrets-crypto/src/lib.rs:135-142 | the `as u32` length cast makes two different records collide from 2^32 octets on, so the bound is sharp |
| Encoding.AadInjectiveExactly | crates/secrets-crypto/src/lib.rs:135-142 | the encoding is injective on records with fields shorter than n octets if and only if n is at most 2^32 |
| Encoding.AadLayout | crates/secrets-crypto/src/lib.rs:135-142 | project, then key, each behind its own length |
| Encoding.AadBytes | crates/secrets-crypto/src/lib.rs:135-142 | the four buffer appends build the encoding the injectivity is about |
| Encoding.VerifierAadReserved | crates/secrets-server/src/crypto_state.rs:55-59 | the verifier's associated data differs from that of every record whose project name has no NUL |
| Encoding.U32RoundTrip | crates/secrets-server/src/crypto_state.rs:61-70 | every 32-bit parameter decodes back from its four little-endian octets |
| Encoding.CacheAadInjective | crates/secrets-client/src/cache.rs:149-165 | server URL, token hash, project and timestamp are all recoverable from a cache entry's associated data |
| Encoding.CacheAadBytes | crates/secrets-client/src/cache.rs:149-165 | the buffer the program extends is that associated data |
| Encoding.PathPreimageInjective | crates/secrets-client/src/cache.rs:167-176 | cache file names separate server, token and project when the URL has no NUL |
| CryptoState.VerifyExactly | crates/secrets-server/src/crypto_state.rs:191-212 | whatever metadata is stored for a key decodes to its parameters, and verification succeeds for its own passphrase, with that key, and for no other passphrase |
| CryptoState.StrongIsUsable | crates/secrets-crypto/src/lib.rs:65-75 | the hardened defaults (256 MiB, 4, 1) are derivable and inside the verification bounds |
| CryptoState.DerivableExactly | crates/secrets-server/src/crypto_state.rs:39-53 | of the parameters the bounds admit, a key is derived exactly when m is at least 8p (RFC 9106, section 3.1) and the passphrase is shorter than 2^32 octets |
| CryptoState.VerifyStopsExactly | crates/secrets-server/src/crypto_state.rs:26-53 | which stored parameters stop a verification before the verifier is opened, with the bounds spelled out, and with which of the two errors, both directions |
| CryptoState.PlanVerifies | crates/secrets-server/src/crypto_state.rs:150-212 | metadata written for any key with 32-bit parameters verifies for its own passphrase if and only if the parameters are within bounds and derivable; every other case has its error |
| CryptoState.SupportedButUnderivable | crates/secrets-server/src/crypto_state.rs:39-53 | a triple within the bounds on which every verification fails at the derivation |
| CryptoState.JoinExact | crates/secrets-server/src/crypto_state.rs:117-137 | the rotation's join yields one row for each secret, in order, with the name of its own project |
| CryptoState.RekeyRowStep | crates/secrets-server/src/crypto_state.rs:138-148 | on a consistent database one loop iteration succeeds and seals exactly one further row anew, contents untouched |
| CryptoState.RekeyedConsistent | crates/secrets-server/src/crypto_state.rs:137-161 | a finished rotation leaves metadata, verifier and every row under the new key |
| CryptoState.OpensOnlyAtItsRecord | crates/secrets-crypto/src/lib.rs:130-134 | a ciphertext opens at one (project, key) only |
| KeyCommands.Initialize | crates/secrets-server/src/crypto_state.rs:167-189 | initialisation persists the whole metadata of the derived key or, on any failure, nothing |
| KeyCommands.InitOrVerify | crates/secrets-server/src/crypto_state.rs:73-78 | a start on stored metadata is its verification and changes nothing; on a sound database it succeeds exactly for the verifier key's passphrase, or, uninitialised, for a derivable one and no failing statement, and then holds the key the database agrees on |
| KeyCommands.SealRows | crates/secrets-server/src/crypto_state.rs:138-148 | the rotation loop seals every joined row under the new key or stops |
| KeyCommands.RekeyWithParams | crates/secrets-server/src/crypto_state.rs:91-161 | all or nothing under a failing statement; succeeds exactly for the right current passphrase and a different derivable new one; counts every secret, keeps the plain map, and is consistent under the new key if and only if the new parameters are within bounds |
| Repo.ListTokensSorts | crates/secrets-server/src/repo.rs:167-183 | the token listing is name, scope, creation, expiry and revocation of every row once, oldest first to the whole second: the column is RFC 3339 text whose fraction varies in length, and rows of one second are compared as text |
| Connections.Connection.CreateProject | crates/secrets-server/src/repo.rs:41-47 | succeeds exactly when the name is new; the row is then found under it, with an id above all others and the other rows kept in order; a UNIQUE violation changes nothing |
| Connections.Connection.UpsertSecret | crates/secrets-server/src/repo.rs:80-102 | insert at version 1 or replace and raise the version; the row then found has the given nonce, ciphertext and time and the version answered, and the other rows are as they were |
| Connections.Connection.DeleteSecret | crates/secrets-server/src/repo.rs:122-132 | answers whether there was such a row; afterwards there is none, and every other project and key has the cell it had |
| Names.NamesAsDocumented | crates/secrets-server/src/handlers.rs:26-40 | project and key names are exactly the ones docs/API.md:31-35 lists, octet by octet |
| Access.ReachesExactly | crates/secrets-server/src/handlers.rs:63-297 | a request reaches its locked section if and only if its names, body and caller allow it; a project's requests are for unscoped tokens and for those of the project |
| Access.ForbiddenExactly | crates/secrets-server/src/auth.rs:66-82 | 403 exactly for a token of another project or a scoped one on the token endpoints, before the key in a put and after it in a delete |
| Access.TooLargeExactly | crates/secrets-server/src/handlers.rs:42-51 | 413 exactly for an oversized body, which the token endpoint looks at after the scope |
| Answers.IssueHandled | crates/secrets-server/src/handlers.rs:202-260 | an accepted request to issue a token answers the name, project and expiry asked for (none, the days given, or 90); the token answered authenticates as that name and project exactly until that expiry, and every other as before |
| Answers.RevokeHandled | crates/secrets-server/src/handlers.rs:284-297 | a revocation answers the number of rows that were active; afterwards nobody authenticates under the name, everybody else as before, and every listed token of the name is revoked |
| Answers.ListHandled | crates/secrets-server/src/handlers.rs:262-282 | a listing changes nothing and shows the columns of every token |
| Answers.TokenRequestRefused | crates/secrets-server/src/handlers.rs:202-297 | a refused request to a token endpoint changes nothing, and is 403 exactly for a scoped caller |
| Answers.LocalTokenIssuedAsAsked | crates/secrets-server/src/commands.rs:144-186 | the local command issues what it was asked for, or refuses and changes nothing |
| Answers.LocalTokenRevokedAsAsked | crates/secrets-server/src/commands.rs:187-193 | the local revocation counts and withdraws |
| Answers.IssueFromLog | crates/secrets-server/src/handlers.rs:202-260 | the same for every logged request to issue, accepted or refused |
| Answers.RevokeFromLog | crates/secrets-server/src/handlers.rs:284-297 | the same for every logged revocation |
| Answers.TokensFromLog | crates/secrets-server/src/handlers.rs:262-282 | every logged listing shows the tokens of that moment |
| Answers.ListFromLog | crates/secrets-server/src/handlers.rs:83-101 | a project listing names, in order, exactly the projects created so far that the caller may use, each with the time of its first create |
| Auth.Scan | crates/secrets-server/src/repo.rs:199-234 | the scan finds an identity exactly when some unrevoked, unexpired row has the presented hash, and the last such row decides |
| Auth.OrderIrrelevant | crates/secrets-server/src/repo.rs:199-234 | with distinct hashes the result is independent of row order |
| Auth.IssuedTokenWorks | crates/secrets-server/src/repo.rs:152-165 | an issued token authenticates as issued exactly until its expiry |
| Auth.RevokeCounts | crates/secrets-server/src/repo.rs:185-192 | the answered number is the number of active rows of that name |
| Auth.RevokedNameIsGone | crates/secrets-server/src/repo.rs:185-192 | after a revocation no token of that name authenticates and every other still does |
| Auth.DeadNeverAuthenticates | crates/secrets-server/src/repo.rs:203-232 | a row once revoked or expired authenticates nothing later in any continuation |
| Server.AppState.AuthedToken | crates/secrets-server/src/auth.rs:41-63 | missing or unaccepted tokens give 401, else the identity of the scan |
| Server.AppState.CreateProject | crates/secrets-server/src/handlers.rs:63-81 | the handler, check by check, takes the step the refinement is proved about |
| Server.AppState.GetSecrets | crates/secrets-server/src/handlers.rs:106-131 | the decrypting loop, stopping at the first failing row, gives the answer the refinement is proved about |
| Server.AppState.PutSecret | crates/secrets-server/src/handlers.rs:138-168 | scope before key name, then look-up, seal, upsert |
| Server.AppState.DeleteSecret | crates/secrets-server/src/handlers.rs:170-191 | key name before scope, then look-up and delete |
| Server.AppState.CreateToken | crates/secrets-server/src/handlers.rs:202-260 | admin check, validation, expiry and insertion in the handler's order |
| Server.AppState.RevokeToken | crates/secrets-server/src/handlers.rs:284-297 | admin check, validation, revocation |
| Refinement.HandlerRefines | crates/secrets-server/src/handlers.rs:63-297 | every request is answered and applied exactly as the plain map would, and the database stays consistent under the server's key |
| Refinement.OpenProject | crates/secrets-server/src/handlers.rs:117-131 | reading an existing project of a consistent database meets no decryption or UTF-8 error and returns exactly its values |
| Refinement.NeverInternal | crates/secrets-server/src/handlers.rs:63-297 | no handler ends in a server error on a consistent database, and one ends unanswered exactly when it would issue a token expiring past the year 9999 |
| Isolation.ListingExactly | crates/secrets-server/src/handlers.rs:83-101 | an unscoped caller is shown every project, a scoped one its own or nothing |
| Isolation.NonInterference | crates/secrets-server/src/auth.rs:66-82 | two servers with different keys, ids and other projects, agreeing on the tokens and on project P, answer every run of P-scoped requests alike and still agree afterwards |
| Isolation.ScopedRunFrame | crates/secrets-server/src/auth.rs:66-82 | a sequence of whole requests with scoped tokens leaves the token table alone and the plain map outside the scopes it used |
| ScopedRuns.ScopedTrafficFrame | crates/secrets-server/src/auth.rs:66-82 | from every reachable state, any interleaving of admissions, locked sections and crashes with scoped tokens leaves the token table and the row and secret rows, ciphertexts included, of every project outside the scopes used |
| ScopedRuns.InterleavedNonInterference | crates/secrets-server/src/auth.rs:66-82 | two systems agreeing on tokens, waiting requests and project P answer every interleaving of P-scoped admissions and sections alike, event by event, and still agree afterwards |
| History.VersionCountsPuts | crates/secrets-server/src/repo.rs:87-101 | a stored version is the number of successful puts since the last successful delete, and presence is that number being positive |
| History.VersionRises | crates/secrets-server/src/repo.rs:87-101 | from one successful put of a key to the next the version rises, by one, if and only if no delete succeeded between; otherwise it is 1 |
| History.MonotonicIffNoDelete | crates/secrets-server/src/repo.rs:87-101 | between any two puts of a key all versions answered rise if and only if no delete of it succeeded between |
| History.VersionRestarts | crates/secrets-server/src/repo.rs:87-94 | a run whose version goes back from 2 to 1, against docs/API.md:103-104 |
| History.GetFromLog | crates/secrets-server/src/handlers.rs:106-131 | an unscoped token or one of the project reads, under each key, the last value put and not deleted since, and no other key; 404 exactly when the project was never created; any other token gets 403 |
| History.PutFromLog | crates/secrets-server/src/handlers.rs:138-168 | 403 for a token of another project, else 400 for a bad key, else success exactly when the project was created, answering one more than the puts since the last delete |
| History.DeleteFromLog | crates/secrets-server/src/handlers.rs:170-191 | 403 for a token of another project, else success exactly when the key has a value |
| History.OneCreateWins | crates/secrets-server/src/handlers.rs:74-80 | of any number of creates of one name the first gets 201 and the others 409 |
| Reachability.RunInv | crates/secrets-server/src/commands.rs:96-137 | the lock, transaction, key and history invariant holds after every run of serve, rekey, token commands, requests and crashes |
| Reachability.KeyLifecycle | crates/secrets-server/src/crypto_state.rs:72-212 | in every reachable state nothing is initialised, or one passphrase's key opens verifier and every row and is the key of every live server |
| Reachability.ServerIsAlone | crates/secrets-server/src/lock.rs:46-59 | while a server lives no other process is past the lock |
| Reachability.LockNeverWedges | crates/secrets-server/src/lock.rs:9-12 | a lock whose holder died is free for the next process |
| Reachability.OnlyCommitsWrite | crates/secrets-server/src/crypto_state.rs:117-158 | nothing before the commit, and no crash, changes the database |
| Reachability.RekeyCommit | crates/secrets-server/src/crypto_state.rs:150-158 | the commit of a rotation keeps projects, keys, values, versions and tokens, leaves no row under the old key, and retires the old passphrase |
| Reachability.RekeyCoversEveryRow | crates/secrets-server/src/crypto_state.rs:117-137 | in every reachable rotation the rows to seal are the secrets, one for one |
| Reachability.AnswersAreSequential | crates/secrets-server/src/auth.rs:53-61 | every interleaving answers as the plain map serving the locked sections one after another |
| Reachability.AnswersFromLog | crates/secrets-server/src/handlers.rs:106-191 | in every interleaving, restart and rotation, reads, puts and deletes are determined by the caller's scope and the order of the locked sections: 403 exactly for those who may not use the project, and a read sees exactly the last values put and not deleted |
| Reachability.NoInternalErrors | crates/secrets-server/src/handlers.rs:63-191 | no served request meets an undecryptable row, a non-text value or a constraint violation |
| Reachability.CreateRace | crates/secrets-server/src/handlers.rs:74-80 | racing creates: one 201, the rest 409, in every interleaving |
| Reachability.RowVersions | crates/secrets-server/src/crypto_state.rs:144-147 | stored versions count puts over every history, rotations and restarts included |
| Reachability.PutVersions | crates/secrets-server/src/repo.rs:97-101 | the version a put answers is that count, itself included |
| Reachability.VersionRisesInRuns | crates/secrets-server/src/repo.rs:87-101 | in every run, rotations and restarts included, the version rises from one put to the next if and only if no delete succeeded between |
| Reachability.MonotonicInRuns | crates/secrets-server/src/repo.rs:87-101 | the same for all versions answered between any two puts |
| Reachability.DeadTokenStaysDead | crates/secrets-server/src/repo.rs:215-227 | a dead token admits no request at any later point whose clock has not gone back |
| Reachability.UnscopedTokensAreIssued | crates/secrets-server/src/handlers.rs:202-260 | every unscoped token was issued by an unscoped caller or the local command |
| Reachability.NoEscalation | crates/secrets-server/src/auth.rs:75-82 | without the local command no unscoped token or identity ever appears |
| Progress.StartDecides | crates/secrets-server/src/commands.rs:96-112 | from every reachable state with a free lock a start ends up serving under the stored key when given its passphrase, and otherwise ends with nothing changed |
| Progress.FirstStart | crates/secrets-server/src/crypto_state.rs:167-189 | a start on an uninitialised database persists the metadata of its derived key and serves under it |
| Progress.RotationCompletes | crates/secrets-server/src/commands.rs:220-236 | a rotation runs to its commit exactly for the right current passphrase and a different derivable new one, whatever the number of rows, and otherwise changes nothing |
| Provenance.EverGenuine | crates/secrets-server/src/crypto_state.rs:137-157 | every blob ever on disk, committed or not, is a verifier of the sentinel or a value put at the record it is sealed for |
| Provenance.TamperedGet | crates/secrets-server/src/handlers.rs:120-128 | whatever stored blobs are moved, planted or rolled back, a successful read returns only values once put under that key of that project |
| Provenance.VerifiedSentinel | crates/secrets-server/src/crypto_state.rs:207-209 | a successful verification has opened the sentinel although the program does not compare it |
| Admission.ServedWereAuthenticated | crates/secrets-server/src/auth.rs:41-63 | every served request was admitted by an earlier event of the run whose presented hash authenticated, on that moment's tokens and clock, as the caller it is served as |
| Admission.ServedOnce | crates/secrets-server/src/auth.rs:41-63 | one admission is good for one served section |
| Admission.RevocationGap | crates/secrets-server/src/auth.rs:53-61 | after a revocation, by the local command or a served request, while no token of that name is issued, an identity of that name waits to be served if and only if it waited there at the revocation and was neither served nor lost since |
| Admission.RevocationAdmitsNobody | crates/secrets-server/src/repo.rs:185-192 | after a revocation nobody of that name is newly admitted in any continuation that issues no token of that name |
| Admission.AdmittedSurvivesRevocation | crates/secrets-server/src/auth.rs:53-61 | whoever still waits after the revocation is served, with the very answer the plain map gives to that caller |
| Admission.PresentedIsAdmitted | crates/secrets-server/src/auth.rs:41-63 | a live server admits a presented token as the identity the table accepts it for at that time, or changes nothing |
| Admission.ServedIssueIsGood | crates/secrets-server/src/handlers.rs:202-260 | in every reachable state, a token issued by a served request is admitted with the name and project asked for at every time before its expiry and at none after |
| Admission.LocalIssueIsGood | crates/secrets-server/src/commands.rs:144-173 | so is one issued by the local command, by a server already running |
| EndToEnd.ClientAcceptsAnswers | crates/secrets-client/src/api.rs:117-139 | the client accepts a server's answer unchanged exactly when its encoding is at most 1 MiB; the key check never refuses one |
| EndToEnd.AnswerBeyondCap | crates/secrets-client/src/api.rs:36-38 | two accepted values of 600 KiB make an answer the client refuses |
| EndToEnd.AnswersExportFaithfully | crates/secrets-client/src/commands.rs:75-95 | an answer within the response cap, fetched and exported, reads back as the answer |
| Cache.StoreThenLoad | crates/secrets-client/src/cache.rs:83-143 | a stored map loads back exactly while its time window lasts and fails outside it |
| Cache.LoadsExactly | crates/secrets-client/src/cache.rs:108-143 | a load succeeds with a map if and only if the file is a version 2 envelope in its window whose ciphertext is that map sealed for this server, token, project and time |
| Cache.LoadsOnlyWhatWasStored | crates/secrets-client/src/cache.rs:108-143 | under racing key creation and copied, edited or deleted files a successful load is a map stored for the same server, token and project within the window |
| CacheSharing.SharedByAll | crates/secrets-client/src/cache.rs:83-147 | once the cache key is agreed, over every run of clients opening, storing, removing and ending, all clients of one server and token have the same store, and a load answers the last map any of them stored, exactly in its window and unless removed |
| CacheSharing.NextProcessLoads | crates/secrets-client/src/cache.rs:286-305 | from an unused directory: what the first process stored before it ended the next one loads, exactly in its window |
| CacheSharing.FirstCreates | crates/secrets-client/src/cache.rs:286-305 | the first to open an unused directory writes the key it drew and is ready with it |
| CacheSharing.LaterReads | crates/secrets-client/src/cache.rs:286-299 | whoever opens it later is ready with the key that is there |
| CacheSharing.RacingCreators | crates/secrets-client/src/cache.rs:299-305 | of two clients creating the key at once the later rename stays, and each keeps the key it drew |
| CacheSharing.LoadAcrossKeys | crates/secrets-client/src/cache.rs:108-143 | what a client stored another of the same server and token loads if and only if their keys are equal |
| Cache.PathsApart | crates/secrets-client/src/cache.rs:167-176 | different servers, tokens or projects use different cache files |
| ClientApi.SecretMapFromPlain | crates/secrets-client/src/api.rs:338-348 | the loop keeps every entry, or rejects the map when a key is invalid |
| ClientApi.Api.GetSecrets | crates/secrets-client/src/api.rs:84-115 | network first, refresh the cache, fall back on transport errors only |
| ClientApi.Api.SetSecret | crates/secrets-client/src/api.rs:144-172 | a successful set drops the project's cached copy if the removal works; the answer is the one of ClientApi.SetExactly |
| ClientApi.SetExactly | crates/secrets-client/src/api.rs:164-172 | a set succeeds exactly on a success status and drops the project's cached copy; 401, 403, 404, any other status and no answer are reported by name, and no file changes |
| ClientApi.GetExactly | crates/secrets-client/src/api.rs:85-139 | a get returns the body of a good answer and stores it, loads the cache when there is no answer, and reports any other ending by name with no file changed |
| ClientApi.OnlyTransportFallsBack | crates/secrets-client/src/api.rs:313-324 | status and body errors neither read nor change the cache |
| ClientApi.OfflineGet | crates/secrets-client/src/api.rs:95-112 | after any run on any initial cache: an offline get fails once a set has dropped the last stored fetch, returns that fetch exactly while it is in its window if not, and answers as before the run if there was neither |
| PrivateFile.FileSystem.WritePrivateFile | crates/secrets-client/src/cache.rs:325-359 | success installs the data and leaves no temporary file; after a failing operation nothing but the temporary file can have changed, and it is gone if the clean-up worked |
| PrivateFile.TargetIsWhole | crates/secrets-client/src/cache.rs:325-359 | at every point of every interleaving the target holds its original contents or the complete data of the last writer to rename |
| PrivateFile.WriterCompletes | crates/secrets-client/src/cache.rs:325-359 | a writer nobody stops installs its data, however many pieces it is written in, and leaves no temporary file |
| PrivateFile.ErrorsInstallNothing | crates/secrets-client/src/cache.rs:346-356 | a call that returned an error has not changed the target; one that succeeded has |
| Dotenv.DotenvValue | crates/secrets-client/src/commands.rs:185-209 | the character loop produces the octet-wise escaping the reader inverts |
| Dotenv.ExportText | crates/secrets-client/src/commands.rs:81-90 | the printing loop produces the dotenv text in key order |
| Dotenv.BareExactly | crates/secrets-client/src/commands.rs:185-196 | a value is printed bare exactly when it is not empty and has only safe characters, and quoted otherwise |
| Dotenv.ExportRoundTrip | crates/secrets-client/src/commands.rs:75-95 | a one-pass reader recovers the exact map, whatever the values |
| Dotenv.ExportInjective | crates/secrets-client/src/commands.rs:75-95 | distinct maps never export to the same text |
| Dotenv.OneLinePerKey | crates/secrets-client/src/commands.rs:81-90 | one line per key, in key order, opening with the key |
| AuditLog.TruncateForLog | crates/secrets-server/src/audit.rs:192-201 | the longest well-formed prefix of at most 64 octets, within three iterations |
| AuditLog.LogProject | crates/secrets-server/src/audit.rs:192-201 | valid project names are logged unchanged |
| Utf8.BoundaryIffValidPrefix | crates/secrets-server/src/audit.rs:195-201 | valid prefixes of well-formed text are those ending on a character boundary (RFC 3629) |
| Utf8.EncodedIsWellFormed | crates/secrets-server/src/audit.rs:195-201 | the encoding of every Unicode scalar value is one well-formed character (RFC 3629, section 3) |
| Utf8.WellFormedIsEncoded | crates/secrets-server/src/audit.rs:195-201 | and every well-formed character is the encoding of one |

## Left out

- XChaCha20-Poly1305, Argon2id, SHA-256, base64 and the random source: replaced by the ideal
  constructors above, so nothing is said about computational strength or nonce collisions.
- JSON, URLs, HTTP routing and the bearer header's syntax: a request is a value, a body
  extraction either yields a value or one of its two errors.
- RFC 3339 formatting: times are integers.
- Repo.ListTokensSorts: rows of one second keep table order in the model; the program orders
  them by the text of their fractions.
- SQLite I/O errors and mutex poisoning inside handlers; busy waiting for the write lock is
  a step that does not happen yet, and integer overflow of row ids and versions at 2^63
  and of the cache's time window at 2^64.
- A client whose cache is disabled or does not open: it reports transport errors as they are.
- KeyCommands.RekeyWithParams: one failing statement of the transaction is an input; reads
  before it do not fail.
- Reachability.RunInv: a handler's locked section is one step, because no other process touches
  projects or secrets while a server holds the lock, and the statements on tokens are single.
- Cache.LoadsOnlyWhatWasStored: an outsider copies and edits envelopes but does not hold a
  cache key; a store is one step, its own steps being the subject of PrivateFile.TargetIsWhole.
- CacheSharing.SharedByAll: no outsider in the directory, and server URLs without NUL octets; a
  client that raced to create the key is the subject of CacheSharing.RacingCreators.
- ClientApi.OfflineGet: one client, no outsider during the run, and a server URL without NUL
  octets.
- JSON encoding: the encoded size of a response is an input, at least as long as the values in
  it; at exactly 1 MiB the HTTP library decides, and is read as accepting.
- PrivateFile.TargetIsWhole: process crashes only, not power loss, and random suffixes that are
  never drawn twice.
- Wiping of memory, constant-time behaviour, file permissions, keychains, terminal input,
  command-line parsing, printing of tables, the audit record itself and configuration files.
- Deletion of projects: the API offers none, so the schema's cascade never runs.
