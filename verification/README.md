# gofr-sec control plane: a verified model

gofr-sec decides who may use which GOFR service. Keycloak users register themselves, admins create groups,
put users into them and mint runtime tokens, and services ask whether a token opens a group. Everything
persistent lives in one flat path-to-secret store (Vault) or, without Vault, in a few dictionaries.

The project models that state together with every operation that changes it, at two levels that are proved
to agree, and proves what the service promises about whole runs.

**The store and its indexes.** `VaultStore` is the key-value client; a ghost journal remembers each single
write, so that a stop between two writes can be spoken about. `Paths` is the path layout, with a parser that
undoes it. `Codec` holds the stored documents. `TokenStore` (canonical token records plus the per-user and
per-group index families) and `MembershipStore` (one sorted blob per user) say what the repositories keep in
the store, and `Documents` what the stored documents say, key by key; `VaultRepositories` has the repository classes, step by step over the client, `VaultSigner` the
signer that reads its key from the same store, and `MemoryRepositories` the in-memory repositories. `Bundle`
puts either kind together behind one set of operations and proves that the users of a shared store cannot
disturb each other.

**Token writes that stop half way.** A token upsert is several store writes, the canonical record first.
`CrashSafety` says what a stop between two of them leaves behind, and that invariant, not full agreement of the
indexes, is what the Vault repositories and everything above them require: all of them run on a store that
stopped writes have left. The state carries two sets for it: `unlisted`, the tokens their owner's listing
misses, and `inexact`, the tokens whose index entries do not all say what the record says. `CrashRuns` is about
whole runs of store writes with stops anywhere, `Retry` about upserts that change owner or groups.

**The authority state machine.** `Authority` gives the effect of every service operation as a function of the
state; `Services` has the service classes, step by step over a bundle, each proved to have exactly that effect
on either backend. `Runs` is the running system: starts, the admin gate, handlers that run some time after
their gate was passed, public requests, and stops of the process after any number of a handler's store writes,
in any interleaving. `Runs`, `History` and `Effects` prove safety over all its runs; `Accounts` traces later
answers and the audit log back to the steps they come from; `Stops` shows that the store writes of any such run
are a run in the sense of `CrashRuns`.

`Contract` says what each request promises without naming the functions of `Authority`: when it succeeds, which
error it gives otherwise, what is different afterwards, what is replied and what is logged. `Simulation` closes the
loop: the server over a bundle, from an empty store through any run, is in the state the state machine is in, each
of its steps keeps the promises of `Contract`, and the documents in the store say what the state has. So everything
proved about reachable states holds of the Vault-backed repositories, also after stops, and both backends answer
alike within one process.

**Arithmetic and text.** `Base64Url` is the key-document number encoding, `Claims` the time claims of signed
tokens, `Rules` the group-name pattern, `Text` and `Sorting` the string and list operations underneath, and
`RuntimeSchema` the normal form of an authorize request.

Some properties one might expect are false; each is stated with the exact condition under which it holds, and
with a concrete input that breaks it.

- Exact index entries. Along every run a token's entries say what its record says if and only if the last
  upsert of it that wrote anything wrote everything (`CrashRuns.EntriesExactIff`). What a stopped mint left is
  repaired exactly by a completed revoke of that token (`CrashRuns.StoppedMintHealsIff`). What a stopped revoke
  left is never repaired, since a second revoke returns early (`CrashRuns.StoppedRevokeNeverHeals`,
  `CrashRuns.StoppedRevokeExample`). Verdicts are not affected: the canonical record decides them alone.
- A user's own listing shows exactly the user's tokens. It does if and only if each of them has had its second
  store write, from its mint or from a revoke (`Stops.ListingExactIff`); a token is missing exactly when no write
  to it got that far (`Stops.UnlistedIff`, `CrashRuns.HalfMintedExample`). Without stops, restarts or not, every
  listing is exact (`Stops.WithoutStops`).
- Retry of an upsert that changes owner or groups. It makes the entries exact if and only if the first try made no
  write or the deletes it did not come to had nothing to delete (`Retry.RetryRepairsIff`); where the old entries
  were all there, that means it got past its deletes (`Retry.RetryOfStoredIff`, `Retry.MovedTokenExample`). No
  service issues such upserts; this is about the repository on its own.
- `Base64Url.MeetsRfcIff`: section 2 of RFC 7518 writes zero as one zero octet (`AA`); the code writes it as
  the empty string. Every positive number is encoded as the RFC says. RSA moduli and exponents are positive.
- `Claims.WindowExactIff`, `Claims.LocalImpliesRecordIff` and `Claims.NotBeforeHasPassedIff`: `int(timestamp())`
  cuts toward zero, so fractional seconds before the epoch round the other way (`Claims.WindowExample`,
  `Claims.OutlivingExample`, `Claims.NotYetExample`).
- Different users have different paths. Two subjects share one if and only if one subject is the other with
  `/tokens` added, or with `/tokens/` and more (`Paths.VaultPathLayout.SubjectsCollideIff`,
  `Paths.VaultPathLayout.SlashesCollide`). The Vault repositories are modelled for subjects without any slash,
  since directory listings cut names at slashes as well.

## Model

| member | source | states |
|---|---|---|
| Paths.VaultPathLayout.ParsePathOf | app/repositories/vault_paths.py:14-54 | a parser recovers, from any path the layout builds, which constructor built it and from what arguments |
| Paths.VaultPathLayout.LayoutInjective | app/repositories/vault_paths.py:14-54 | for slash-free names two path constructors give the same string only if they are the same one with the same arguments |
| Paths.VaultPathLayout.PathsLocated | app/repositories/vault_paths.py:14-54 | every path constructor has an inverse on the whole path space, so no two families of paths overlap |
| Paths.VaultPathLayout.PathTexts | app/repositories/vault_paths.py:14-54 | the text of every path, for every prefix, subject, group and token id |
| Paths.VaultPathLayout.SlashesCollide | app/repositories/vault_paths.py:17-30 | a concrete collision for every subject: the profile path of one is a token entry of the other |
| Paths.VaultPathLayout.SubjectsCollideIff | app/repositories/vault_paths.py:17-30 | two different subjects share a profile, membership or token-entry path if and only if one is the other followed by `/tokens`, or by `/tokens/` and more |
| Paths.StripEntry | app/repositories/vault_tokens.py:109 | stripping trailing slashes from a listing entry, leaf or folder, gives exactly the child's name |
| Codec.TokenRoundTrip | app/repositories/vault_tokens.py:17-49 | a token record read back from what was written is the same record, whatever the clock says meanwhile |
| Codec.GroupRoundTrip | app/repositories/vault_groups.py:18-36 | the same for group definitions |
| Codec.ProfileRoundTrip | app/repositories/vault_users.py:17-37 | the same for user profiles |
| Codec.MembershipRoundTrip | app/repositories/vault_groups.py:39-55 | the same for one membership |
| Codec.BlobRoundTrip | app/repositories/vault_groups.py:97-120 | the same for a user's whole membership blob, order included |
| TokenStore.UpsertAtUserEntry | app/repositories/vault_tokens.py:70-91 | what an upsert leaves at any user-index path: the new entry for the owner, nothing for a previous owner, the old secret everywhere else |
| TokenStore.UpsertAtGroupEntry | app/repositories/vault_tokens.py:76-102 | the same for group-index paths, in whatever order the dropped groups come up |
| TokenStore.UpsertStores | app/repositories/vault_tokens.py:65-104 | a completed upsert, changing owner and groups or not, keeps records and both index families in exact two-way agreement |
| TokenStore.TokenRefinement | app/repositories/vault_tokens.py:65-104 | after any sequence of completed upserts the store holds exactly the in-memory map, an index entry existing if and only if owner or group says so |
| TokenStore.UpsertFrame | app/repositories/vault_tokens.py:65-104 | token writes change no path outside the token families |
| Documents.CompletedUpsertsSay | app/repositories/vault_tokens.py:17-104 | after any sequence of completed upserts: ten keys with the record's values at its canonical path; in each user's and each group's index exactly the right tokens, every entry with the token's id, its owner, its group, and "active" or "revoked" as the record has it |
| Documents.StoppedUpsertsSay | app/repositories/vault_tokens.py:65-104 | the same after any run of stopped upserts, apart from missing entries and from entries that still call a revoked token active; ids, owners and groups are always right |
| Documents.BundleSays | app/repositories/vault_groups.py:18-120 | the same for a whole bundle over Vault, with its profiles, group definitions and membership lists key by key |
| CrashSafety.PrefixConsistent | app/repositories/vault_tokens.py:68-102 | a service upsert stopped after any number of writes leaves the old or the new record, and no index entry that dangles or names a wrong owner or group |
| CrashRuns.CrashSafeRun | app/services/token_service.py:320-414 | along any run of mints and revokes stopped anywhere, mixed with other repositories' writes, the records are the upserts that got past their first write and no entry dangles; Stops.RunsAreServiceRuns shows that the services issue such runs |
| CrashRuns.GetAfterCrashes | app/repositories/vault_tokens.py:59-63 | after any such run a read decodes, and gives the last record whose first write was made |
| CrashSafety.UpsertHeals | app/repositories/vault_tokens.py:65-104 | a completed upsert of any kind makes the token's own entries exact whatever earlier stops left of them, and changes no other token's |
| CrashSafety.StopExactIff | app/repositories/vault_tokens.py:65-104 | past its first write, a service upsert leaves exact entries if and only if it made every write, from any crash-consistent store |
| CrashSafety.UpsertHolds | app/repositories/vault_tokens.py:65-104 | what a completed upsert does to records, unlisted and inexact tokens of a store that stops have touched |
| CrashSafety.StopHolds | app/repositories/vault_tokens.py:65-104 | the same for a service upsert stopped after any number of writes |
| CrashRuns.EntriesExactIff | app/services/token_service.py:320-414 | along every run a token's entries are exact if and only if the last upsert of it that wrote anything wrote everything |
| CrashRuns.UnlistedIff | app/services/token_service.py:320-414 | along every run a token is missing from its owner's listing if and only if its record is there and no upsert of it got to its second write |
| CrashRuns.ListedIff | app/repositories/vault_tokens.py:84-92 | in the store itself, the owner's entry exists if and only if some upsert of the token made its second write |
| CrashRuns.HalfMintedExample | app/services/token_service.py:320-414 | a concrete mint whose token is hidden from its owner until a revoke gets to its second write |
| CrashRuns.StoppedRevokeNeverHeals | app/services/token_service.py:397-401 | entries left by a stopped revoke stay wrong in every later state, as a second revoke returns early |
| CrashRuns.StoppedMintHealsIff | app/services/token_service.py:388-414 | entries left by a stopped mint become exact if and only if a later revoke of the token completes |
| CrashRuns.StoppedRevokeExample | app/services/token_service.py:397-414 | a concrete mint and stopped revoke that leave a wrong group entry |
| Stops.RunsAreServiceRuns | app/services/token_service.py:288-437 | along every run of the service, stops included, the token upserts issued meet the conditions of the crash-safety results, and the state's tokens, unlisted and inexact ids are exactly what those upserts leave |
| Stops.InexactIff | app/services/token_service.py:320-414 | in every reachable state a token's entries are inexact if and only if the last write to it stopped half way |
| Stops.UnlistedIff | app/services/token_service.py:320-414 | in every reachable state a token is missing from its owner's listing if and only if no write to it got as far as the second |
| Stops.ListingExactIff | app/services/token_service.py:475-480 | in every reachable state a user's listing is exactly the user's tokens if and only if each has had its second write |
| Stops.WithoutStops | app/services/token_service.py:475-480 | a run without stops, restarts included, leaves every listing and every entry exact |
| Stops.StoppedRevokeIsForGood | app/services/token_service.py:397-401 | after a stopped revoke the token is revoked, and its entries inexact, in every later state of every run |
| Stops.MintIsServiceUpsert | app/services/token_service.py:320-330 | what a mint writes meets the conditions of the crash-safety results |
| Stops.RevokeIsServiceUpsert | app/services/token_service.py:397-414 | so does a first revoke, and a second one writes nothing |
| Runs.StopVerdict | app/services/runtime_service.py:36-48 | after a stop in any handler, every authorize verdict is the one before the handler if no write was made, and the one after the completed handler otherwise |
| Retry.AnyStopKeepsRecords | app/repositories/vault_tokens.py:65-104 | an upsert of any kind, stopped anywhere, leaves the canonical records old or new as a whole |
| Retry.RetryRepairsIff | app/repositories/vault_tokens.py:66-82 | for the repository on its own, on any store that stopped writes left: trying a stopped upsert again makes the entries exact if and only if the first try made no write or nothing was at the paths it had yet to delete |
| Retry.RetryOfStoredIff | app/repositories/vault_tokens.py:66-82 | on a store in full agreement: if and only if the first try made no write or got past its deletes |
| Retry.MovedTokenExample | app/repositories/vault_tokens.py:66-82 | a concrete change of owner that a second try does not repair |
| VaultRepositories.VaultTokenRepository.constructor | app/repositories/vault_tokens.py:55-57 | attaches to whatever token records the store holds, stopped writes included |
| VaultRepositories.VaultTokenRepository.Get | app/repositories/vault_tokens.py:59-63 | gives the record of the in-memory map, and depends on the canonical path alone |
| VaultRepositories.VaultTokenRepository.Upsert | app/repositories/vault_tokens.py:65-104 | on any store that stopped writes may have left: replaces one record, makes its entries exact and the token listed, and makes exactly the listed writes in program order |
| VaultRepositories.VaultTokenRepository.UpsertStopped | app/repositories/vault_tokens.py:65-104 | the first writes of `Upsert` and no more: the record is old or new, and it is known which entries are missing or out of date |
| VaultRepositories.VaultTokenRepository.WriteRecord | app/repositories/vault_tokens.py:68-102 | the multi-write sequence: the journal grows by canonical write, deletes, user entry, group entries |
| VaultRepositories.VaultTokenRepository.DropOwnerEntry | app/repositories/vault_tokens.py:70-74 | deletes the entry of a previous owner only if there is one who differs |
| VaultRepositories.VaultTokenRepository.DropStaleGroups | app/repositories/vault_tokens.py:76-82 | deletes exactly one entry for each dropped group, in some order |
| VaultRepositories.VaultTokenRepository.WriteGroupEntries | app/repositories/vault_tokens.py:93-102 | writes one entry for each granted group, in order |
| VaultRepositories.VaultTokenRepository.ListForUser | app/repositories/vault_tokens.py:106-115 | lists exactly the owner's records that are not unlisted, each once, though it follows the index and never checks the owner; never another owner's, on any store that stops have left |
| VaultRepositories.UserIndexListing | app/repositories/vault_tokens.py:108-111 | the names listed under a user's index are exactly the ids of the user's tokens that are not unlisted |
| VaultRepositories.TokenAnswers | app/repositories/vault_tokens.py:59-115 | after any sequence of upserts every read and every owner's listing has the in-memory answer |
| MembershipStore.AddAgrees | app/repositories/vault_groups.py:122-130 | read-filter-append-sort-write adds exactly one entry to the map of memberships, blobs staying strictly sorted and each its own subject's |
| MembershipStore.RemoveAgrees | app/repositories/vault_groups.py:132-138 | removal drops exactly one entry, and its result tells whether there was one |
| MembershipStore.MembershipRefinement | app/repositories/vault_groups.py:97-138 | along every run of adds and removes the blobs are well formed and mean exactly the in-memory map |
| MembershipStore.MembershipAnswers | app/repositories/vault_groups.py:132-147 | so membership tests, removal results and listings agree with the in-memory map after any run |
| MembershipStore.KnownUsersCoverBlobs | app/repositories/vault_users.py:40-43 | the directory listing finds every subject that has a blob |
| VaultRepositories.ListKnownUserIds | app/repositories/vault_users.py:40-43 | strictly sorted, and exactly the subjects with any path under the users root |
| VaultRepositories.VaultGroupMembershipRepository.LoadMemberships | app/repositories/vault_groups.py:97-104 | gives the stored list, empty for a subject without a blob |
| VaultRepositories.VaultGroupMembershipRepository.StoreMemberships | app/repositories/vault_groups.py:106-120 | one write: the sorted blob, or a delete when nothing is left |
| VaultRepositories.VaultGroupMembershipRepository.Add | app/repositories/vault_groups.py:122-130 | sets one entry of the map, by one write to the subject's own path |
| VaultRepositories.VaultGroupMembershipRepository.Remove | app/repositories/vault_groups.py:132-138 | removes one entry, reports whether it was there, and writes nothing when it was not |
| VaultRepositories.VaultGroupMembershipRepository.HasMembership | app/repositories/vault_groups.py:140-144 | agrees with the map |
| VaultRepositories.VaultGroupMembershipRepository.ListForUser | app/repositories/vault_groups.py:146-147 | lists exactly the user's memberships, each once |
| VaultRepositories.VaultGroupMembershipRepository.ListForGroup | app/repositories/vault_groups.py:149-157 | lists exactly the group's memberships over all subjects, each once |
| VaultRepositories.VaultGroupMembershipRepository.CountMembers | app/repositories/vault_groups.py:159-160 | the number of memberships the map has in the group |
| VaultRepositories.VaultUserRepository.Get | app/repositories/vault_users.py:53-57 | agrees with the map of profiles |
| VaultRepositories.VaultUserRepository.Upsert | app/repositories/vault_users.py:59-64 | replaces one profile, by one write |
| VaultRepositories.VaultUserRepository.IsRegistered | app/repositories/vault_users.py:66-67 | true exactly for the subjects in the map |
| VaultRepositories.VaultGroupRepository.Get | app/repositories/vault_groups.py:65-69 | agrees with the map of definitions |
| VaultRepositories.VaultGroupRepository.Upsert | app/repositories/vault_groups.py:71-73 | replaces one definition, by one write |
| MemoryRepositories.InMemoryUserProfileRepository.Upsert | app/repositories/in_memory.py:23-25 | replaces one entry of the dictionary |
| MemoryRepositories.InMemoryGroupRepository.Upsert | app/repositories/in_memory.py:40-42 | replaces one entry of the dictionary |
| MemoryRepositories.InMemoryGroupMembershipRepository.Add | app/repositories/in_memory.py:57-60 | sets the entry of subject and group |
| MemoryRepositories.InMemoryGroupMembershipRepository.Remove | app/repositories/in_memory.py:62-64 | removes the entry and reports whether it was there |
| MemoryRepositories.InMemoryGroupMembershipRepository.ListForUser | app/repositories/in_memory.py:69-74 | lists exactly the user's memberships, each once |
| MemoryRepositories.InMemoryGroupMembershipRepository.ListForGroup | app/repositories/in_memory.py:76-81 | lists exactly the group's memberships, each once |
| MemoryRepositories.InMemoryGroupMembershipRepository.CountMembers | app/repositories/in_memory.py:83-84 | the number of memberships of the group |
| MemoryRepositories.InMemoryTokenRepository.Upsert | app/repositories/in_memory.py:96-98 | replaces one entry of the dictionary |
| MemoryRepositories.InMemoryTokenRepository.ListForUser | app/repositories/in_memory.py:100-103 | lists exactly the owner's records, each once |
| MemoryRepositories.LoggingAuditEventRepository.Append | app/repositories/audit.py:17-33 | the log grows by the event at its end and changes nowhere else |
| Bundle.FamiliesIndependent | app/bootstrap.py:51-62 | over one shared store, the writes of one repository leave what every other repository and the signer see as it is |
| Bundle.RepositoryBundle.KeyIsKept | app/repositories/vault_paths.py:53-54 | every valid bundle still has at its signing path what was there at the start; as every operation keeps bundles valid, none reaches the key |
| VaultSigner.MaterialIff | app/services/token_service.py:180-206 | the key material is exactly the stored private-key text that is not blank, and the stored key id unless that is missing or blank; no material if and only if there is no such private-key text |
| VaultSigner.VaultTokenSigner.SignToken | app/services/token_service.py:180-233 | reads the key anew from the store and is the signer that minting is modelled with; there is no text if and only if the private key is missing or blank; otherwise it is signed with exactly the stored key, and with the stored key id if that is not blank |
| Bundle.RepositoryBundle.UpsertToken | app/bootstrap.py:34-44 | either backend: one token record of the state is replaced and listed, all else stays, the shared store stays coherent, the signing key is untouched |
| Bundle.RepositoryBundle.UpsertTokenStopped | app/repositories/vault_tokens.py:65-104 | the same for an upsert stopped after any number of its writes |
| Bundle.RepositoryBundle.AddMembership | app/bootstrap.py:34-44 | the same for one membership |
| Bundle.RepositoryBundle.RemoveMembership | app/bootstrap.py:34-44 | the same for a removal, with the same reported result |
| Bundle.RepositoryBundle.UpsertProfile | app/bootstrap.py:34-44 | the same for one profile |
| Bundle.RepositoryBundle.UpsertGroup | app/bootstrap.py:34-44 | the same for one group definition |
| Bundle.BuildMemoryBundle | app/bootstrap.py:64-72 | a new in-memory bundle holds nothing |
| Bundle.BuildVaultBundle | app/bootstrap.py:51-62 | so does a new bundle over a Vault that holds at most a signing key |
| Bundle.RebuildVaultBundle | app/bootstrap.py:49-62 | a new bundle over a Vault in use, stopped token writes included, sees all that is stored and starts with an empty audit list |
| Text.StripBlankIff | app/services/user_registration_service.py:22 | a text is empty after stripping if and only if all of it is whitespace |
| Text.SpaceTable | app/domain/rules.py:17 | whitespace is what Python strips: 29 code points |
| Text.StripCuts | app/domain/rules.py:17 | stripping cuts exactly the surrounding whitespace |
| Text.SplitJoin | app/settings.py:36 | splitting at a separator loses nothing: joining gives the text back |
| Text.JoinSplit | app/settings.py:36 | texts without the separator, joined by it, come apart again as they were |
| Text.SubjectsAre | app/services/bootstrap_service.py:13-21 | the normalized subjects are exactly the configured ones, stripped, without blank ones, each once |
| Text.CsvItemsAre | app/settings.py:30-41 | what is read from a comma-separated text is exactly the non-blank texts between commas, stripped, each once |
| Text.NormalizeSubjectsLoop | app/services/bootstrap_service.py:13-21 | the loop with its seen-set computes the stripped, non-empty, deduplicated list |
| Text.SplitCsvLoop | app/settings.py:30-41 | the same for comma-separated text, with None and the empty text giving nothing |
| Text.DedupeElements | app/settings.py:34-41 | deduplication keeps every element, each once |
| Text.DedupeStable | app/settings.py:34-41 | survivors stand in the order of their first occurrences |
| Text.NormalizeIdempotent | app/services/bootstrap_service.py:13-21 | normalizing a normalized list changes nothing |
| Text.BootstrapKeepsCsvSubjects | app/services/bootstrap_service.py:43-47 | subjects from the environment come out of the bootstrap plan unchanged |
| Rules.PatternClosedForm | app/domain/rules.py:12 | the regular expression, matched step by step, accepts exactly: length 1 to 64, allowed characters, alphanumeric ends |
| Rules.NormalizeIff | app/domain/rules.py:15-20 | normalization gives a group name if and only if the text is that name in letters of either case with whitespace around it |
| Rules.NormalFormFixed | app/domain/rules.py:15-20 | names in normal form are exactly the fixed points of normalization |
| Rules.NormalizeIdempotent | app/domain/rules.py:15-20 | normalization is idempotent on everything it accepts |
| Rules.NormalizeAll | app/domain/rules.py:58 | name by name normal forms, or an error exactly because some name is invalid |
| Rules.GroupNamesAreSegments | app/repositories/vault_paths.py:35-36 | a normalized group name is always usable as one path segment |
| Sorting.StringLeIff | app/repositories/vault_groups.py:106-120 | the order of names goes by the first place where they differ, and a name comes before its continuations |
| Sorting.SortStable | app/services/token_service.py:483-487 | the sort keeps the order of elements it cannot tell apart |
| Sorting.StrictlySortedUnique | app/services/user_registration_service.py:116-121 | a strictly sorted list is determined by its elements, so backend order cannot show |
| Claims.ClaimsForIff | app/services/token_service.py:131-139 | what is signed is the one claim set that names the token, its owner and the issuer and has the record's times in whole seconds, cut toward zero |
| Claims.WindowExactIff | app/services/token_service.py:131-139 | exp - iat is the lifetime exactly, if and only if the token is not issued at a fractional second before the epoch and expires after it |
| Effects.SignedClaims | app/services/token_service.py:303-329 | every token of a reachable state was minted by an admin's handler of the run; the text in its reply is what that handler's signer gave for claims with jti the token id, sub the owner, iss the issuer, and the record's times in whole seconds; the record has its digest; issued from the epoch on, the window is exactly the lifetime asked for, or the default, and no locally valid text outlives the record |
| Claims.LocalImpliesRecordIff | app/services/token_service.py:217-225 | no locally valid token outlives its record, if and only if the expiry is not a fractional second before the epoch |
| Claims.NotBeforeHasPassedIff | app/services/token_service.py:217-225 | nbf does not lie after the moment of issue if and only if that is not a fractional second before the epoch |
| Base64Url.EncodeDecodes | app/services/token_service.py:69 | the encoding is URL-safe characters plus padding, and decodes to the same octets without the padding |
| Base64Url.MinimalBytes | app/services/token_service.py:68 | the computed octet length is enough and has no leading zero octet |
| Base64Url.UintRoundTrip | app/services/token_service.py:67-69 | decoding gives every number back; only URL-safe characters, no padding |
| Base64Url.UintInjective | app/services/token_service.py:67-69 | different numbers have different texts |
| Base64Url.CharTable | app/services/token_service.py:69 | the alphabet is the table in section 5 of RFC 4648 |
| Base64Url.EncodingExamples | app/services/token_service.py:67-69 | the example of appendix C of RFC 7515, and "AQAB" for the exponent 65537 |
| Base64Url.JwkHoldsKey | app/services/token_service.py:81-89 | the key document is of an RSA signing key with the given key id and algorithm; its n decodes to the modulus and its e to the exponent |
| Base64Url.JwkDeterminesKey | app/services/token_service.py:81-89 | every RSA public key has a key document, and two documents are equal only for the same modulus, exponent, key id and algorithm |
| Base64Url.MeetsRfcIff | app/services/token_service.py:67-69 | the text is the Base64urlUInt of section 2 of RFC 7518 if and only if the number is positive |
| RuntimeSchema.RuntimeAuthorizationRequestSchema.ValidateTarget | app/api/schemas/runtime.py:14-32 | accepts exactly the requests with both ids and exactly one target after stripping, and stores the stripped fields only then |
| RuntimeSchema.AcceptsIff | app/api/schemas/runtime.py:14-27 | what is accepted, said of the fields as they came in: both ids not blank, and a group or a resource not blank, but not both |
| RuntimeSchema.RequestOf | app/api/schemas/runtime.py:28-32 | the request that comes of it has each field stripped and nothing for a blank one |
| RuntimeSchema.StrippedIdempotent | app/api/schemas/runtime.py:16-19 | validating a validated request changes nothing |
| RuntimeSchema.PermissionIsDefinite | app/services/runtime_service.py:38-41 | an accepted request asks for exactly one permission that is not blank: the stripped group if there is one, else the stripped resource |
| Authority.RegisterSelf | app/services/user_registration_service.py:59-112 | touches profiles and the log only, and logs one event |
| Authority.CreateGroup | app/services/admin_group_service.py:42-84 | touches groups and the log only; an error leaves just one failure event |
| Authority.AddMembership | app/services/admin_group_service.py:86-137 | touches memberships and the log only; an error leaves just one failure event |
| Authority.RemoveMembership | app/services/admin_group_service.py:139-194 | touches memberships and the log only; an error leaves just one failure event |
| Authority.MintToken | app/services/token_service.py:288-353 | touches tokens, their entries and the log only; an error leaves just one failure event |
| Authority.RevokeToken | app/services/token_service.py:388-437 | touches tokens, their entries and the log only; an error leaves just one failure event |
| Authority.StopIsNothingOrAll | app/services/token_service.py:320-414 | as far as records go, a stopped handler is one not begun or one completed |
| Authority.GetToken | app/services/token_service.py:355-386 | touches the log only |
| Authority.Authorize | app/services/runtime_service.py:26-76 | touches the log only |
| Authority.ProfileViewUnique | app/services/user_registration_service.py:114-137 | only one profile view fits a state, so both backends show the same |
| Authority.AnswersAgree | app/bootstrap.py:47-72 | two replies that fit the same request in the same state agree, token rows as multisets |
| Contract.StartDoes | app/services/bootstrap_service.py:49-67 | a start keeps all groups and memberships; a missing admin group is made, with its description, and exactly the missing configured subjects become admins, by nobody, now |
| Contract.RegisterDoes | app/services/user_registration_service.py:59-112 | name and email become exactly the claimed text if one that is not blank is claimed, and stay as they were otherwise; the first registration dates the profile, this one its update; created or refreshed accordingly |
| Contract.ProfileDoes | app/services/user_registration_service.py:114-137 | the profile as it is stored, and the names of exactly the caller's groups in strictly increasing order |
| Contract.ListingDoes | app/services/token_service.py:475-510 | exactly the caller's listed records, each once, issue times never increasing |
| Contract.CreateDoes | app/services/admin_group_service.py:42-84 | creation succeeds if and only if the name spells a group name that is not reserved and not taken, else the error of the first condition that fails; the new definition field by field |
| Contract.AddDoes | app/services/admin_group_service.py:86-137 | addition succeeds if and only if the name spells a defined, active group and the subject is registered, else the error of the first condition that fails; then the old membership is kept or exactly the new one is there |
| Contract.RemoveDoes | app/services/admin_group_service.py:139-194 | removal succeeds if and only if there is such a membership and, for the admin group, another subject's as well; each error has its condition |
| Contract.GroupsValidated | app/services/token_service.py:439-455 | requested groups are refused for the first of four reasons, or granted in normal form, each once, in the order they were first asked for |
| Contract.LastInstantIs | app/services/token_service.py:312 | the last expiry that can be represented is the last microsecond of the year 9999 |
| Contract.MintDoes | app/services/token_service.py:288-353 | a mint is refused for the first of eight reasons, or gives a text signed over the right claims and a record with every field as asked for |
| Contract.InspectDoes | app/services/token_service.py:355-386 | the stored record as it is, or TokenNotFound |
| Contract.RevokeDoes | app/services/token_service.py:388-437 | a first revocation sets status and date and nothing else; a later one changes nothing and gives the record back |
| Contract.DecisionDoes | app/services/runtime_service.py:26-76 | allowed if and only if the token is there, active, unexpired, the owner's, and grants the group asked for, or else the resource; the event says the same |
| Contract.EveryCallMeets | app/bootstrap.py:47-72 | any answer to any request keeps the promises of its kind, log entry included |
| Simulation.EveryStepMeets | app/api/dependencies.py:60-69 | along every run with restarts and stops, every step keeps its promises: the gate lets exactly the current admins' requests pass, only those and public ones are handled, and a stopped handler leaves the records as before it or as after it |
| Services.RequireAdminIdentity | app/api/dependencies.py:60-69 | passes exactly the current admins and changes nothing |
| Services.BootstrapService.ApplyPlan | app/services/bootstrap_service.py:49-67 | over either backend, exactly the specified bootstrap of the state |
| Services.BootstrapService.GrantAll | app/services/bootstrap_service.py:56-65 | the granting loop adds exactly the specified memberships |
| Services.UserRegistrationService.RegisterSelf | app/services/user_registration_service.py:59-112 | over either backend, exactly the specified state, log and result |
| Services.UserRegistrationService.GetSelfProfile | app/services/user_registration_service.py:114-137 | the caller's profile, and the caller's groups strictly sorted |
| Services.AdminGroupService.CreateGroup | app/services/admin_group_service.py:42-84 | over either backend, exactly the specified state, log and result or error |
| Services.AdminGroupService.FindMembership | app/services/admin_group_service.py:196-204 | the search loop finds the membership of subject and group if there is one |
| Services.AdminGroupService.AddMembership | app/services/admin_group_service.py:86-137 | over either backend, exactly the specified state, log and result or error |
| Services.AdminGroupService.RemoveMembership | app/services/admin_group_service.py:139-194 | over either backend, exactly the specified state, log and error, last-admin guard included |
| Services.AdminTokenService.ValidateGroupsLoop | app/services/token_service.py:439-455 | the loop with its early exit accepts exactly what the specification accepts, with the same list |
| Services.AdminTokenService.MintToken | app/services/token_service.py:288-353 | over either backend, exactly the specified state, log and result or error |
| Services.AdminTokenService.GetToken | app/services/token_service.py:355-386 | over either backend, exactly the specified state, log and result or error |
| Services.AdminTokenService.RevokeToken | app/services/token_service.py:388-437 | over either backend, stores left by stops included, exactly the specified state, log and result or error |
| Services.AdminTokenService.MintTokenStopped | app/services/token_service.py:298-330 | a mint whose process stops after any number of its writes: the specified partial state |
| Services.AdminTokenService.RevokeTokenStopped | app/services/token_service.py:396-414 | the same for a revoke |
| Services.AdminTokenService.PrepareToken | app/services/token_service.py:299-319 | all checks and the signing make no write, and give exactly the specified record or error |
| Services.UserTokenService.ListSelfTokens | app/services/token_service.py:475-510 | exactly the caller's records, each once, newest first, apart from the unlisted ones of `Stops.UnlistedIff`; all of them in runs without stops (`Stops.WithoutStops`) |
| Services.SelfListingStable | app/services/token_service.py:482-488 | records issued at the same instant stay in the repository's order |
| Services.RuntimeAuthorizationService.Authorize | app/services/runtime_service.py:26-76 | over either backend, stores left by stops included, exactly the specified verdict and log |
| Services.Handle | app/bootstrap.py:47-72 | any request, over either backend, moves the state as specified and gets a fitting reply |
| Services.HandleStopped | app/services/token_service.py:288-437 | any handler in a process that stops after any number of its store writes leaves the specified state |
| Simulation.Start | app/bootstrap.py:75-93 | a start keeps what Vault stores, what stops have left included, empties the audit list and applies the bootstrap plan |
| Simulation.Advance | app/api/dependencies.py:60-69 | one step of the server, a stop included, is one step of the state machine, with a fitting response |
| Simulation.Drive | app/bootstrap.py:47-93 | the server over a bundle is, after any run with restarts and stops, in exactly the state of the state machine, requests in flight included; every step kept its promises (`Simulation.EveryStepMeets`); the documents in the store say what the state has (`Documents.BundleSays`); the signing key is untouched |
| Simulation.DriveBoth | app/bootstrap.py:47-72 | any run of one process gets the same responses over Vault and over memory, and leaves the same contents and audit log |
| Runs.GrantAdminsExact | app/services/bootstrap_service.py:56-65 | granting leaves existing memberships alone and adds exactly the missing admins |
| Runs.BootstrapIdempotent | app/services/bootstrap_service.py:49-67 | a second start with the same plan, at any later time, changes nothing |
| Runs.BootstrapAdmins | app/services/bootstrap_service.py:49-67 | the admins afterwards are the old ones and the plan's; everything that was there stays |
| Runs.BootstrapOrderInsensitive | app/services/bootstrap_service.py:49-67 | the order of the plan's subjects does not matter |
| Runs.StoppedStartIsShorter | app/services/bootstrap_service.py:49-67 | a start stopped after any number of its writes leaves the state before, or that of a start with the first few of its subjects |
| Runs.StoppedStartIsRun | app/services/bootstrap_service.py:49-67 | so a stopped start is already among the runs: a start with fewer subjects, or none, and then a stop |
| Services.BootstrapService.ApplyPlanStopped | app/services/bootstrap_service.py:49-67 | over Vault, a start whose process stops after any number of its writes leaves exactly the specified partial state |
| Runs.LastAdminSurvives | app/services/admin_group_service.py:162-171 | once there is an admin there is one in every later state, under every interleaving of gates and handlers, across restarts and stops |
| Runs.LastAdminRefusedIff | app/domain/rules.py:50-53 | a removal is refused as the last admin's exactly when the subject is the only admin |
| Runs.RecordsEvolve | app/services/token_service.py:396-414 | from any point of a run on, a token only ever goes from active to revoked with all else constant, group definitions never change, registration times stay, and names and emails once set are never lost |
| Runs.DenialIsPermanent | app/services/runtime_service.py:36-48 | a request about an existing token, once denied, is denied at every later moment of every run |
| Runs.RevokedIsDenied | app/services/token_service.py:396-414 | a revoked token is denied at once for everything, and revoking again changes no record |
| History.ReachableIntegrity | app/services/token_service.py:302-330 | in every reachable state: granted groups non-empty, distinct, normal, defined, active, never admin; owners registered; issued before expiry; revoked exactly with a revocation time; from the first start of the run on, the admin group is there, a system group, active |
| History.AdminNeverAuthorized | app/domain/rules.py:56-63 | authorize for `admin` is denied in every reachable state |
| History.AllowedMeans | app/services/runtime_service.py:36-48 | an allowed request has a registered owner, an active group, an unrevoked and unexpired token |
| History.Provenance | app/api/dependencies.py:60-69 | every membership, token and group of a reachable state was made by a step of the run: a handler whose call succeeded with exactly it, the membership or group not there before, for a subject that was an admin earlier, also if the admin lost the group between gate and handler; or, for an admin membership or the admin group, a start that found none |
| History.NoBootstrapNoAuthority | app/services/bootstrap_service.py:49-67 | if no bootstrap subject is ever configured there are never memberships or tokens, and no group but admin |
| History.CallIsLogged | app/services/admin_group_service.py:64-83 | each call appends exactly one event that accounts for all it changed; showing a profile appends none |
| History.FailureOnlyLogs | app/services/admin_group_service.py:172-183 | an operation logged as a failure changed nothing but the log |
| History.StepAppends | app/repositories/audit.py:17-33 | nothing in a running process takes back or changes an earlier log entry |
| History.AuditReplay | app/repositories/audit.py:17-36 | from a start on, folding the log gives exactly the memberships, group names, token ids, revoked ids and registered subjects |
| Accounts.CreateSucceedsIff | app/services/admin_group_service.py:52-62 | in every reachable state a group can be created if and only if its name is well formed, not reserved, and no step of the run created it under any spelling |
| Accounts.AddSucceedsIff | app/services/admin_group_service.py:96-113 | in every reachable state a subject can be added to a group if and only if some step of the run registered the subject and some step created the group; it is a member then |
| Accounts.InspectShowsMint | app/services/token_service.py:355-386 | in every reachable state an inspection gives the record some step of the run minted, at most revoked since, and there is one if and only if some step minted it |
| Accounts.RevokedSinceFirst | app/services/token_service.py:396-414 | in every reachable state a token's revocation date is the time of the run's first revocation of it that got to a store write, and it has none if and only if there was none |
| Accounts.EventsAreAccountedFor | app/repositories/audit.py:17-36 | every event of the log was left by one step of the run, and tells who asked for what, when and under which correlation id; whoever asked for what only admins may do was an admin earlier in the run |
| Effects.ProfileShowsLastGiven | app/services/user_registration_service.py:59-112 | along every run a profile shows the name and email given by the last of the subject's registrations to give one, and the times of the first and the last registration; nothing else changes it, and there is one if and only if the subject registered |
| Effects.RegistrationIdempotent | app/services/user_registration_service.py:59-112 | registering again with the same claims changes only the update time |
| Effects.AddIsIdempotent | app/services/admin_group_service.py:103-113 | a second addition returns the first one's membership and changes nothing |
| Effects.RemoveUndoesAdd | app/services/admin_group_service.py:139-194 | a removal restores the memberships before a new addition, unless that made the first admin ever, and then it is refused |
| Effects.ValidateGroupsIff | app/services/token_service.py:439-455 | groups can be granted if and only if there is one at least and each names a defined, active group other than admin |
| Effects.GrantedExactly | app/services/token_service.py:439-455 | what is granted is what was asked for, in normal form, and nothing else |
| Effects.MintStaysPossible | app/services/token_service.py:298-330 | once its owner is registered and its groups exist, nothing later in any run makes a mint fail except a bad lifetime or the signer's refusal of exactly the token's claims |
| Effects.MintNeedsKeyIff | app/services/token_service.py:180-233 | with the Vault signer such a mint, for a lifetime that can be granted, fails if and only if the signing path holds no private-key text or a blank one, and with that error |
| Effects.MintedTokenOpens | app/services/runtime_service.py:36-48 | a new token opens exactly the groups asked for, to exactly its owner, until exactly its lifetime is over; other tokens are unaffected |
| Effects.NameCreatedOnce | app/services/admin_group_service.py:52-62 | two names that normalize alike are never both created, at any two points of any run |
| Effects.AllowedUntil | app/services/runtime_service.py:36-48 | an allowed request stays allowed along every run exactly until expiry or revocation, whatever happens to memberships |

## Left out

- Order of listings: both backends are compared up to order, since dictionaries keep insertion order and Vault's order is its own; the in-memory dictionaries are maps here and are scanned in some order.
- `list_all` of groups and events, and `delete` of groups: no service calls them.
- `VaultClient`: `gofr_common` is not part of this model; the client is modelled from how the repositories use it (read, overwrite, hard delete, existence, immediate children), and path normalization inside it is not covered.
- Subjects and minted token ids must be non-empty and slash-free for the Vault backend; group names always are, and token ids that are only looked up may be anything.
- Store failures that the process outlives, as opposed to a stop between two writes, and several processes writing to one Vault: the code has no locking or compare-and-set. The audit branches for a raising repository are left out with them.
- `TokenRefinement`: is about completed upserts; for stopped ones see `CrashRuns`, which covers the two kinds of upsert the services issue, and `Retry` for all others.
- `UpsertTokenStopped`: is about the same two kinds of upsert.
- `UpsertStopped`: is about the two kinds of upsert the services issue; stops in other kinds leave canonical records intact (`Retry.AnyStopKeepsRecords`) but may leave dangling entries.
- Stops elsewhere: a handler with a single store write is not begun or completed when it stops; a stopped start is a start with fewer subjects or none, and a stop (`Runs.StoppedStartIsRun`). Neither needs a step of its own. A stop loses the audit list and the requests in flight, and the next process may go on without a start.
- `ReachableIntegrity`, `RecordsEvolve`, `EveryStepMeets`, `EventsAreAccountedFor`, `MintTokenStopped`: assume that a minted id is fresh, as `uuid4` ids are.
- The clock is an argument; one reading is taken per call, so record times and event times of one call coincide. `timestamp()` is taken to be exact to the microsecond.
- RSA, PEM, SHA-256 and `jwt.encode`: the signer is a function from claims to text, or to nothing when key material is missing; both signers build the same claims. A stored text that is not blank is taken to parse as a key, and the key id derived from it when none is stored is part of the encoding. The signing path is the layout's own; a configured one may differ.
- `isoformat` and `fromisoformat`: taken as inverse to each other; a stored date text of any other kind counts as malformed.
- Documents no repository writes: the deserializers coerce foreign values with `str` and `bool`; here those documents are malformed, and no result is about them.
- Case folding: `Lower` is exact for every character whose lower case is an ASCII letter, so acceptance and normal forms are exact; for other letters only the group name in a failure event would differ.
- `RepositoryBundle`: the repository protocols become a tagged union of the two bundles, since the two kinds are all there are.
- Keycloak token verification, key fetching and the consumer-side cache: the verified identity is an input.
- FastAPI routing, HTTP status mapping, response schemas, logging output, and environment parsing other than `_split_csv`.
- `ensure_can_rename_group` and `ensure_can_delete_group`: no code calls them.
