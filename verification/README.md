# DA-IPAM: a Dafny model of its stateful core

DA-IPAM manages IP addresses, devices and the credentials of the systems around them. This project
models the parts of it whose correctness depends on histories, interleavings or on another reader of
its output, and proves what they promise over every input, every run or every interleaving.

| file | what it models |
|---|---|
| `TwoFactor.dfy` | second-factor enrolment and code replay: four conditional updates run by any number of concurrent logins and an administrator |
| `JobPolling.dfy` | polling of an installation job: timers, requests in flight, restarts, leaving the page, late answers |
| `SqlLike.dfy` | the "contains" pattern against a full LIKE matcher |
| `Csv.dfy` | the CSV printer against a reader of section 2 of RFC 4180 |
| `Crypto.dfy`, `Vault.dfy` | encryption under two keys, the vault switch, and re-encryption value by value |
| `EnvSecrets.dfy` | the secrets file and the process environment kept equal |
| `CredentialsVault.dfy` | the credential store and its import from older settings |
| `Migration.dfy`, `Tenants.dfy` | the multi-tenant migration: files with a fault at any step and rollback; users, access rows and the completion of an existing hub |
| `Oid.dfy` | the object-identifier rules and lookups: first match against longest match |
| `Sorting.dfy`, `Choices.dfy` | sort-then-take-first choices: user fingerprint rules, DHCP leases; fingerprints that may name a model |
| `ClassificationCache.dfy` | the cache of custom classifications, its index and its expiry |
| `UpdateStatus.dfy` | the verdict on an update and following it to its end |
| `StatusFile.dfy`, `StatusWriter.dfy` | the status file behind the verdict: its reader, and the commands that write it in runs of any length |
| `KnowledgeBase.dfy` | the build of the attribution knowledge base and the lookups in it |
| `Sequences.dfy` | shared text operations: split and join, trimming, Option and Result |

Parameters stand for what the code gets from outside: random draws of the cipher and of the secret
generator, the clock, database answers and their failures, upper and lower case on arbitrary text, the
locale's order, the URL classifiers of the import, and what the hub is filled with.

Where code and documentation differ, the model follows the code:

- The import of credentials calls itself idempotent. It is, except in one situation, which
  `CredentialsVault.SecondImport` states exactly and `CredentialsVault.ImportCanRepeat` shows.
- The migration's rollback promises to restore the original. It does for the main database, from any
  failure; `Migration.RollbackForgetsTheLog` says exactly when the write-ahead log is left behind, and
  `Migration.RollbackRestores` when the migration cannot be started again. It leaves copied log files beside
  the removed tenant database; `Migration.RetryPairsLogs` says exactly when a later attempt then ends with a
  tenant or a backup that has a log file of an earlier one.
- A secret written to a file that has no line for it reads back exactly when it is single-line:
  `EnvSecrets.InsertedReadsBackIff`. Where it replaces a line it must also be free of the pairs that
  JavaScript's `replace` interprets (`$$`, `$&`, `` $` ``, `$'`): `EnvSecrets.ReplacedReadsBackIff` over all
  files, and `EnvSecrets.ReplacedReadsBackInFile` in each file unless a pair pastes the text around the line.
- The comment on updating a credential says that a null secret is left alone; the code removes it, as it
  does an empty one: `CredentialsVault.PatchRow`.
- A document of CSV rows joined by line ends reads back whole unless it has several rows and the last is a
  single cell without text: `Csv.DocumentReadsBack`.
- The comment on the second factor says that a used code never passes twice. `TwoFactor.StepAcceptedIff`
  says exactly when a step is accepted, used before or not: when it is newer than every step accepted since
  the last reset, removal or successful activation. `TwoFactor.StepsRepeatAcrossReset` and
  `TwoFactor.ActivationMayGoBack` are the two ways in which a used one passes again.

## Model

| member | source | states |
|---|---|---|
| TwoFactor.UserRow.SaveProposal | src/lib/db-hub.ts:842-848 | a proposal is stored only over the one its sender read and only while no secret is confirmed; otherwise the row is untouched |
| TwoFactor.UserRow.ActivateSecret | src/lib/db-hub.ts:851-861 | confirming moves that very proposal to the secret with its code step, and empties the proposal |
| TwoFactor.UserRow.UseStep | src/lib/db-hub.ts:864-870 | a code step is recorded only when newer than the last one |
| TwoFactor.UserRow.SetSecondCheck | src/lib/db-hub.ts:873-880 | requiring touches nothing else; resetting and removing clear every field of the protocol |
| TwoFactor.RequiredIff | src/lib/db-hub.ts:873-880 | in every run the second factor is required exactly when it was required with no removal since, or was so at first and never removed |
| TwoFactor.WipeForgets | src/lib/db-hub.ts:873-880 | after a reset or removal nothing of the protocol is left in the row |
| TwoFactor.ActivationStays | src/lib/db-hub.ts:851-861 | what a successful activation writes, secret and time, stays until the next reset, with no proposal beside it |
| TwoFactor.SaveStays | src/lib/db-hub.ts:842-848 | what a successful save writes, proposal and expiry, stays until the next reset, activation or successful save |
| TwoFactor.DatedAlways | src/lib/db-hub.ts:842-880 | in every run a secret has its time and a last step, a proposal its expiry, and no date stands alone |
| TwoFactor.EpochInvariant | src/lib/db-hub.ts:851-880 | with no reset in between, a confirmed secret stays and its last step never goes back, in any run |
| TwoFactor.StepAcceptedIff | src/lib/db-hub.ts:851-880 | in every run a code step is accepted exactly when it is newer than every step accepted since the last reset, removal or successful activation, that activation's own included, and, if there was none, newer than the step the run began with |
| TwoFactor.StepsIncreaseUntilForgotten | src/lib/db-hub.ts:851-880 | of two accepted steps the later one is newer, unless a reset, a removal or a successful activation lies after the first |
| TwoFactor.OneActivationPerEpoch | src/lib/db-hub.ts:851-861 | two confirmations that succeed are separated by a reset |
| TwoFactor.StepsRepeatAcrossReset | src/lib/db-hub.ts:864-880 | a step is accepted again across a reset |
| TwoFactor.ActivationMayGoBack | src/lib/db-hub.ts:864-870 | a step recorded before any activation does not bind the activation's step |
| TwoFactor.ProposalsAfterSave | src/lib/db-hub.ts:842-848 | after a save wins, any later proposal was written by it or by a later save |
| TwoFactor.OneSaveWins | src/lib/db-hub.ts:837-848 | of two savers that read the same value at most one succeeds, unless they read none and a reset lies between |
| TwoFactor.OneConfirmationPerProposal | src/lib/db-hub.ts:851-861 | a given proposal is confirmed at most once in a whole run |
| TwoFactor.ExclusiveAlways | src/lib/db-hub.ts:842-861 | a row never holds a secret and a proposal together |
| TwoFactor.SecretIsLastSaved | src/lib/db-hub.ts:842-861 | secret and proposal are always the last successfully saved proposal |
| TwoFactor.ClientsRunStatements | src/lib/accesso/accesso-locale.ts:116-162 | any interleaving of clients that read and later write is a run of the four statements |
| TwoFactor.LoginsNeverShareAStep | src/lib/accesso/accesso-locale.ts:119-162 | no two logins of one activation enter with the same code step, even when simultaneous |
| TwoFactor.LetInIff | src/lib/accesso/accesso-locale.ts:116-162 | exactly which logins are let in, by the row read and the row found: a code of the confirmed secret newer in both, or the first code of a proposal that still stands; never without the second factor required |
| TwoFactor.ProposesIff | src/lib/accesso/accesso-locale.ts:134-150 | a first step saves its proposal exactly when the row still holds what it read, and no secret |
| TwoFactor.RacingProposals | src/lib/accesso/accesso-locale.ts:138-150 | of two first steps that read the same proposal at most one saves its own |
| TwoFactor.LetInOnCurrentSecretIff | src/lib/accesso/accesso-locale.ts:116-162 | a login that is let in compared its code with the secret now in the row exactly when it is the confirmation itself or no administrator reset the row between its reading and its writing |
| JobPolling.Hook.Stop | src/hooks/use-job-polling.ts:30-34 | stopping moves the generation on and clears the recorded timer |
| JobPolling.Hook.StartPolling | src/hooks/use-job-polling.ts:38-61 | starting stops first, resets what is shown and schedules one timer for the new generation |
| JobPolling.Hook.LeavePage | src/hooks/use-job-polling.ts:36-36 | leaving the page stops |
| JobPolling.Hook.Fire | src/hooks/use-job-polling.ts:46-47 | a timer sends one request with the generation and error count it holds |
| JobPolling.Hook.Receive | src/hooks/use-job-polling.ts:47-59 | an answer acts only for its own generation: next timer, or end and one call of `onFine` |
| JobPolling.InvAlways | src/hooks/use-job-polling.ts:21-63 | the invariant of the hook holds after every sequence of events |
| JobPolling.OneRoundAtATime | src/hooks/use-job-polling.ts:21-63 | pending timers plus requests of the current generation never exceed one, and while mounted `attivo` is true exactly when there is one |
| JobPolling.StaleAnswerIgnored | src/hooks/use-job-polling.ts:48-48 | an answer of an older generation changes nothing |
| JobPolling.OneEndingPerGeneration | src/hooks/use-job-polling.ts:54-58 | `onFine` is called at most once per generation |
| JobPolling.SilentAfterStop | src/hooks/use-job-polling.ts:30-36 | after leaving, until the next start: nothing pending, no `onFine`, nothing shown changes |
| JobPolling.SilentIffNoStartSince | src/hooks/use-job-polling.ts:36-63 | leaving silences polling exactly until the next start |
| JobPolling.StepCountsErrorRun | src/lib/integrations/polling-job.ts:56-96 | the error count of a step is the length of the error run its answer closes; at the limit it does not continue |
| JobPolling.StepIs | src/lib/integrations/polling-job.ts:56-96 | the outcome, job and message of each answer, as iffs, by the error run it closes |
| JobPolling.PollingEndsIff | src/hooks/use-job-polling.ts:46-59 | in every run `onFine` is called by exactly the answers to the pending round that show a finished job, a lost session (401), a lost job (404) or that close the fifth error in a row, each with its own outcome, job and message; any other answer to it schedules the next round |
| JobPolling.ShownAfter | src/hooks/use-job-polling.ts:38-59 | what the page shows of job, message and activity after every event of every run |
| JobPolling.CounterIsErrorRun | src/hooks/use-job-polling.ts:42-49 | while a round is pending the counter is the run of errors just heard in this generation, below the limit |
| SqlLike.LikeContainsIsSubstring | src/lib/sql-like.ts:8-10 | the pattern matches a value exactly when the text occurs in it, up to ASCII case |
| SqlLike.PatternWellFormed | src/lib/sql-like.ts:6-10 | the pattern never ends in a dangling escape |
| SqlLike.EscapingIsNeeded | src/lib/sql-like.ts:1-5 | without escaping, a text with a wildcard matches values that do not contain it |
| Csv.MatchesNumberIsPlain | src/lib/csv-utils.ts:12-12 | the number test accepts exactly an optional sign, digits and an optional decimal part |
| Csv.ReadsField | src/lib/csv-utils.ts:13-18 | reading a printed field gives its text and stops right behind it |
| Csv.ReadsRecord | src/lib/csv-utils.ts:22-24 | reading a printed record gives its texts, whatever follows the line |
| Csv.RowReadsBack | src/lib/csv-utils.ts:22-24 | a row reads back as its guarded cells, same count and order, exactly when it has a cell |
| Csv.CellsReadBack | src/lib/csv-utils.ts:10-19 | each cell reads back as its own text exactly when that is no formula or is a plain number, else as the whole text behind one apostrophe |
| Csv.QuotedIff | src/lib/csv-utils.ts:13-18 | a field is quoted exactly when it holds a separator, a quote or a line end |
| Csv.ReadsRows | src/app/api/export/route.ts:34-40 | what rows joined by a line end read back as |
| Csv.DocumentReadsBack | src/app/api/export/route.ts:34-40 | joined rows read back whole exactly when there is one or the last is not a single cell without text; else only the last is lost |
| Csv.NoFormulaReadBack | src/lib/csv-utils.ts:10-19 | no cell read back starts a formula unless it is a plain decimal number |
| Crypto.HexRoundTrip | src/lib/crypto.ts:36-55 | decoding undoes hex encoding, and encoded bytes hold no separator |
| Crypto.HexCaseIgnored | src/lib/crypto.ts:44-55 | decoding takes digits in either case |
| Crypto.HexAppend | src/lib/crypto.ts:36-37 | output printed in chunks is the print of the whole |
| Crypto.ParsePrint | src/lib/crypto.ts:40-52 | the three parts of the text always come back |
| Crypto.Cipher.EncryptWithKey | src/lib/crypto.ts:32-42 | what is printed opens with the key to the plaintext |
| Crypto.Cipher.DecryptWithKey | src/lib/crypto.ts:44-60 | a text opens exactly when it has three parts and was sealed with the key; wrong shape and wrong key are told apart |
| Crypto.Cipher.Encrypt | src/lib/crypto.ts:64-69 | switch off with an installation key: succeeds, and the text opens with that key to the plaintext; on with an open data key: the same with the data key; the locked error exactly when on without a data key, the missing-key error exactly when off without an installation key |
| Crypto.Cipher.DecryptText | src/lib/crypto.ts:71-87 | data key first, then installation key; the locked error only without a data key |
| Crypto.Cipher.SafeDecrypt | src/lib/crypto.ts:93-100 | nothing in place of every error |
| Crypto.SealedTextOpensOnlyWithItsKey | src/lib/crypto.ts:32-60 | a sealed text opens with its key to its plaintext, the empty one included, and with no other, whatever is sealed later |
| Vault.SoundAlways | src/lib/crypto.ts:64-87 | in every run each value is sealed under one of the two keys with its own plaintext, login secrets under the installation key |
| Vault.EveryValueReadable | src/lib/crypto.ts:71-87 | with the switch on and the data key open each value decrypts to its plaintext at every point of every run; locked, exactly the installation-key ones do |
| Vault.LockedStretch | src/lib/crypto.ts:64-69 | from a locked state, through any run without an unlocking or a start with the switch off, no encryption succeeds and no stored value is added or moved |
| Vault.EncryptionStores | src/lib/crypto.ts:64-69 | with the switch off an encryption stores one value that reads back so and under the installation key; with the vault open, under the data key; locked, none |
| Vault.AccessStores | src/lib/crypto.ts:103-118 | a login secret is stored whatever the switch and the lock, and opens with the installation key |
| Vault.MoveIff | src/lib/vault/ricifra.ts:150-167 | re-encryption of a value changes it exactly with the vault open and the value under the key it moves from |
| Vault.SwitchIs | src/lib/crypto.ts:64-87 | in every run the switch is as the last start set it |
| Vault.OpenIff | src/lib/crypto.ts:64-87 | in every run the data key is open exactly when unlocked with no lock and no start since |
| Vault.PlaintextsKept | src/lib/vault/ricifra.ts:150-167 | re-encryption never changes which plaintexts are stored |
| Vault.ReadableOffIffNoneUnderData | src/lib/crypto.ts:72-72 | with the switch off everything is readable exactly when nothing is under the data key |
| Vault.CompleteInversePass | scripts/da-vault.ts:127-138 | after an inverse pass over every value, with no encryption between, everything is readable with the switch off |
| Vault.EncryptAfterPassBreaksIt | scripts/da-vault.ts:126-128 | one encryption after the pass makes that false |
| EnvSecrets.ReadLine | src/lib/env-secrets.ts:70-73 | what is read from a text is decided by its first line, else by the rest |
| EnvSecrets.UpsertReads | src/lib/env-secrets.ts:62-73 | a single-line value reads back after being inserted, and after replacing a line when it holds no interpreted pair, in any file |
| EnvSecrets.UpsertKeepsOther | src/lib/env-secrets.ts:62-73 | writing a single-line value that pastes no text from around a replaced line never changes what is read for another secret, nor whether it has a line, with duplicate or empty assignments too |
| EnvSecrets.InsertedReadsBackIff | src/lib/env-secrets.ts:65-68 | in a file without a line for the secret a value reads back exactly when it is single-line |
| EnvSecrets.ReplacedReadsBackIff | src/lib/env-secrets.ts:64-65 | a value reads back from every file that has a line for it exactly when it is single-line and free of the interpreted pairs |
| EnvSecrets.ReplacedReadsBackInFile | src/lib/env-secrets.ts:64-65 | in every single file that has a line, a value that reaches no pair pasting the text around it reads back exactly when it is single-line and free of the interpreted pairs |
| EnvSecrets.InterpretedValueMayReturn | src/lib/env-secrets.ts:64-65 | with such a pasting pair a value may come back from one file by chance |
| EnvSecrets.StripKeepsReading | src/lib/env-secrets.ts:131-133 | dropping leading newlines changes nothing that is read |
| EnvSecrets.SettleAligns | src/lib/env-secrets.ts:99-129 | one turn aligns its secret on runtime, file or generated value, in that order, and leaves the other alone |
| EnvSecrets.Host.SettleOne | src/lib/env-secrets.ts:100-128 | one turn of the loop on environment and text; nothing changes when already aligned |
| EnvSecrets.Host.EnsureSecrets | src/lib/env-secrets.ts:87-135 | when no runtime value pastes the text around the line it replaces, file and trimmed runtime end agreeing on both secrets exactly when the runtime values are single-line and those that replace a line free of interpreted pairs; runtime wins, then the file, then the generated value; with single-line runtime values every other variable of the file reads as before; no newline leads a written file; on an aligned host nothing is written |
| EnvSecrets.Host.NormalizeAliases | src/lib/env-secrets.ts:31-39 | each of the two names fills the other when blank |
| EnvSecrets.AliasesFill | src/lib/env-secrets.ts:31-39 | afterwards each name has a value exactly when one had, set ones stay, and a second time changes nothing |
| EnvSecrets.LoopAligns | src/lib/env-secrets.ts:99-129 | after both turns both secrets hold their target value |
| EnvSecrets.LoopAlignsIff | src/lib/env-secrets.ts:99-129 | after both turns both agree exactly when both could be written literally, also when one turn writes an interpreted value |
| CredentialsVault.PatchRow | src/lib/credentials-vault.ts:211-267 | the id is kept, an absent field unchanged, a given one taken; a secret given as null or empty is removed, and only then |
| CredentialsVault.Store.Create | src/lib/credentials-vault.ts:170-204 | one row is appended with the next id, enabled, at sort order 100; empty secrets are absent |
| CredentialsVault.Store.Update | src/lib/credentials-vault.ts:211-279 | only the row with the id changes; none when there is none |
| CredentialsVault.Store.AddOrInternalNote | src/lib/credentials-vault.ts:420-461 | a source becomes a row exactly when no listed row has its label, its normalised label or its URL and it has a secret |
| CredentialsVault.Store.RewriteAutomaticAccess | src/lib/credentials-vault.ts:480-484 | exactly the rows of listed automatic-access LibreNMS entries get the browser URL |
| CredentialsVault.Store.SyncFromLegacySettings | src/lib/credentials-vault.ts:376-586 | the import is the composition of its sources, counted as created and skipped |
| CredentialsVault.NormalizeLabelKeeps | src/lib/credentials-vault.ts:380-386 | normalising a label without parentheses keeps every character but white space |
| CredentialsVault.NormalizeLabelChars | src/lib/credentials-vault.ts:380-386 | normalising invents no character but the space |
| CredentialsVault.SuffixIgnored | src/lib/credentials-vault.ts:378-386 | a label without parentheses and the same label with one of the two suffixes normalise alike |
| CredentialsVault.RunsCollapse | src/lib/credentials-vault.ts:380-386 | however much white space stands between two words of a label, it counts as one space |
| CredentialsVault.ImportKeepsRows | src/lib/credentials-vault.ts:376-586 | from any vault every row stays with id, kind, label and secrets; only automatic-access LibreNMS URLs change, to the browser URL; as many rows are new as are counted |
| CredentialsVault.EverySourceLands | src/lib/credentials-vault.ts:364-374 | every source with a URL and a secret for which no listed row stands (same kind and label, normalised label or URL) becomes a row, field by field: internal URLs marked in label and note, empty secrets absent, enabled, at sort order 100; LibreNMS under the name `admin` |
| CredentialsVault.NewRowsAreAccounted | src/lib/credentials-vault.ts:376-586 | every new row is, field by field, that of such a source or one of the two dashboards, whose kind and label no listed row had |
| CredentialsVault.DashboardsLand | src/lib/credentials-vault.ts:475-555 | each dashboard becomes a row when there is a URL for it and no listed row has its kind and label |
| CredentialsVault.ImportCounts | src/lib/credentials-vault.ts:376-586 | both counts of an import: one created for each source no row stands for and each missing dashboard, one skipped for every other source with a URL |
| CredentialsVault.CreatesIsUnmatched | src/lib/credentials-vault.ts:387-450 | the tests through the sets of keys are that no listed row stands for the source, and that it has a URL and a secret |
| CredentialsVault.RestSettles | src/lib/credentials-vault.ts:501-584 | after an import nothing but LibreNMS can be created by the next one |
| CredentialsVault.LibreNmsSettles | src/lib/credentials-vault.ts:463-498 | LibreNMS stays held back unless the import loses the URL match that held it back |
| CredentialsVault.LibreNmsReturns | src/lib/credentials-vault.ts:463-498 | when it loses it, the next import does create LibreNMS |
| CredentialsVault.SecondImport | src/lib/credentials-vault.ts:362-376 | a second import with the same settings creates nothing, except exactly one row exactly when the first lost the LibreNMS URL match |
| CredentialsVault.ImportCanRepeat | src/lib/credentials-vault.ts:463-498 | with the automatic-access path as API URL and as the URL of one row, the second import creates a row |
| Migration.Host.Perform | scripts/migrate-to-multitenant.ts:291-415 | one step of the migration, with or without a fault, and what it records for the rollback |
| Migration.Host.Cleanup | scripts/migrate-to-multitenant.ts:182-199 | exactly the recorded files go, and the recorded directory when empty |
| Migration.Host.Migrate | scripts/migrate-to-multitenant.ts:260-446 | unmet prerequisites change nothing; otherwise the run completes, or ends as the rollback of some failed step |
| Migration.AfterHolds | scripts/migrate-to-multitenant.ts:291-415 | where every file is after any number of steps |
| Migration.RollbackFiles | scripts/migrate-to-multitenant.ts:433-445 | where every file is after the rollback of any failed step, sidecar files included |
| Migration.RollbackRestores | scripts/migrate-to-multitenant.ts:433-445 | whatever step fails, and however, the original is back with its content and no backup is left; it can be run again exactly when no half-written hub or tenant file went unrecorded |
| Migration.RollbackDirectory | scripts/migrate-to-multitenant.ts:433-445 | the directory of the tenants is there after a rollback exactly when it was before, or is not empty |
| Migration.RollbackForgetsTheLog | scripts/migrate-to-multitenant.ts:408-415 | the original's log files are as before except, exactly, after a failed rename of the second with the first renamed |
| Migration.OriginalNeverLost | scripts/migrate-to-multitenant.ts:386-442 | the original content is at its path or at the backup's after every step, every failure and every part of the rollback |
| Migration.Completed | scripts/migrate-to-multitenant.ts:294-415 | a completed run has the original at tenant and backup and not at its old path; each of its log files, or its absence, is beside each of them exactly when the original had that log or none stood there before |
| Migration.RollbackLeavesLogs | scripts/migrate-to-multitenant.ts:391-445 | after a rollback a log stands beside the tenant exactly when one did before or the failed attempt copied one, at least in part; beside the backup exactly when one did before or the rename of the second failed after that of the first |
| Migration.RetryPairsLogs | scripts/migrate-to-multitenant.ts:268-445 | an attempt after a rollback, whatever became of the original in between, gives tenant and backup the original's log files of that moment exactly when each is there or the earlier attempt left none |
| Migration.RetryCompletes | scripts/migrate-to-multitenant.ts:268-445 | on a disk nothing touched since the rollback, starting again ends with the same files as an undisturbed run, but for the hub filled without a log left behind |
| Tenants.CopyUsers | scripts/migrate-to-multitenant.ts:316-348 | all users are copied under their ids with one access row each, viewers as viewers and the others as administrators, the first administrator else the first user as superadmin; none when a role is refused |
| Tenants.OneSuperadmin | scripts/migrate-to-multitenant.ts:327-341 | from users without a superadmin the copy has exactly one, and who it is |
| Tenants.CopyTable | scripts/migrate-to-multitenant.ts:214-256 | every row arrives in order with the shared columns and the extra ones; nothing from an absent or empty table |
| Tenants.HubDb.EnsureHubTenantAndAccess | scripts/enable-multitenant.ts:108-173 | the tenant, one promotion at most, and access for each user that lacks it |
| Tenants.GrantedRows | scripts/enable-multitenant.ts:157-167 | new access rows are for users without access: viewers as viewers, the others as administrators |
| Tenants.EveryoneHasAccess | scripts/enable-multitenant.ts:114-168 | afterwards the DEFAULT tenant exists, added with the next id only if it was missing; every user but superadmins has access, earlier rows are untouched, no pair is doubled |
| Tenants.CompletionIsIdempotent | scripts/enable-multitenant.ts:108-173 | completing again changes nothing |
| Tenants.SuperadminIff | scripts/enable-multitenant.ts:134-151 | a superadmin exists afterwards exactly when there was one or an administrator to promote; only the first administrator changes, and only without a superadmin |
| Oid.OpensList | src/lib/device-classifier.ts:45-50 | the loop decides whether one list of segments opens the other |
| Oid.OidPrefixMatches | src/lib/device-classifier.ts:43-51 | the comparison is by whole segments |
| Oid.ScanRules | src/lib/device-classifier.ts:352-356 | the scan returns the first matching rule's classification |
| Oid.FirstMatchPosition | src/lib/device-classifier.ts:352-356 | none exactly when no rule matches, else a matching rule before which none matches |
| Oid.OrderedFirstIsLongest | src/lib/device-classifier.ts:148-151 | when longer prefixes come before the shorter ones they extend, the first match is the longest |
| Oid.FirstIsLongestIffOrdered | src/lib/device-classifier.ts:150-208 | first match is longest match for every identifier exactly when the table is so ordered |
| Oid.ReorderingKeepsVerdict | src/lib/device-classifier.ts:150-208 | any reordering that keeps longer before shorter gives the same verdict |
| Oid.SegmentsOfPrinted | src/lib/device-classifier.ts:43-45 | a canonical identifier splits into the numbers it was printed from |
| Oid.SegmentsOfParts | src/lib/device-classifier.ts:43-45 | segments of any text: a dot is only a border, so leading, doubled and trailing dots do not count |
| Oid.LengthSortedIsOrdered | src/lib/db-hub.ts:1421-1425 | canonical identifiers sorted by decreasing text length are so ordered |
| Oid.TextMatchIsSegmentMatch | src/lib/scanner/snmp-sysobj-lookup.ts:230-234 | on canonical identifiers the text test of the lookup is the segment test |
| Oid.ClassifierTableIsOrdered | src/lib/device-classifier.ts:150-208 | in the classifier's own table the first match is always the longest |
| Sorting.FilterSort | src/lib/device-fingerprint-classification.ts:94-98 | filtering after a stable sort is sorting what the filter keeps |
| Sorting.StableSortIsSort | src/lib/device-fingerprint-classification.ts:96-96 | a list is sorted with equal elements in their old order exactly when it is what the insertion sort gives, so the model covers whatever stable sort the runtime has |
| Sorting.HeadOfSortedFilter | src/lib/device-fingerprint-classification.ts:94-111 | filter, stable sort and first is the least accepted element, the earliest among equals |
| Choices.ApplyUserRules | src/lib/device-fingerprint-classification.ts:93-111 | the rule applied fires on the text, and each other that does comes later by priority, then pattern, then position; none exactly when no enabled rule fires |
| Choices.MacHexIgnoresPunctuation | src/lib/utils.ts:86-88 | an address compares as twelve upper-case hexadecimal digits however it is punctuated |
| Choices.MacHexKeepsDigits | src/lib/utils.ts:86-88 | hexadecimal digits in any case come back upper-case, padded with zeros and cut at twelve |
| Choices.LeaseChosen | src/lib/ip-assignment.ts:22-39 | the first lease that shares the host's hardware address and has its IP, else the first that shares the address with no more recently synced one, else the first with the IP; none exactly when no lease has either |
| Choices.DirectoryLeaseChosen | src/lib/ip-assignment.ts:42-57 | the indexed lease of the IP, else the first row that shares the hardware address and has the IP, else the first that shares the address with no more recently synced one, whatever the index holds; none exactly without an entry for the IP and a row that shares the address |
| Choices.ProfileNamesModel | src/lib/device-fingerprint-classification.ts:167-230 | a vendor profile that replaces a weak fingerprint yields its name as the model; any later profile changes nothing unless that name is a weak label, and then a usable one yields its own |
| Choices.ModelOfIff | src/lib/device-fingerprint-classification.ts:151-174 | a fingerprint names its device as the model exactly with confidence from 0.56 and a source, if it lists any, that is not of ports or time-to-live alone |
| Choices.ProfileApplies | src/lib/device-fingerprint-classification.ts:211-232 | a profile replaces a fingerprint exactly when usable and the fingerprint weak, with its name, confidence and the sources without repetition |
| Choices.ModelFromPortsOnly | src/lib/device-fingerprint-classification.ts:186-205 | true exactly when some fingerprint carries the model, all that do are from ports only, and every text parses |
| ClassificationCache.RuntimeCache.BuildEntry | src/lib/device-classifications-runtime.ts:38-42 | the entry holds the rows, their index and the expiry |
| ClassificationCache.RuntimeCache.GetEntry | src/lib/device-classifications-runtime.ts:48-61 | live entry, else a fetched one that is kept, else the old one |
| ClassificationCache.RuntimeCache.Invalidate | src/lib/device-classifications-runtime.ts:67-70 | exactly that tenant's entry goes |
| ClassificationCache.IndexIsSearch | src/lib/device-classifications-runtime.ts:38-42 | with the slug as primary key the index answers as a search of the list |
| ClassificationCache.IndexIsSearchIff | src/lib/device-classifications-runtime.ts:38-42 | it does for a slug exactly when the first and the last row of the slug are the same |
| ClassificationCache.CachedEntriesAreSourced | src/lib/device-classifications-runtime.ts:48-70 | every cached entry is a table fetched by an earlier read and not invalidated since |
| ClassificationCache.AnswerIsRecentSnapshot | src/lib/device-classifications-runtime.ts:48-70 | an answer is such a table, less than 60 000 ms after the read that fetched it had it, however long that took, unless this read's refresh failed |
| ClassificationCache.NoAnswerIffNeverRead | src/lib/device-classifications-runtime.ts:48-70 | in every run a read has no answer exactly when the tenant is blank, or the fetch fails and no read since the last invalidation had a working database |
| ClassificationCache.AsksIff | src/lib/device-classifications-runtime.ts:48-70 | in every run a read asks the database exactly when its tenant is not blank and no fetch of it, not invalidated since, ended less than 60 000 ms before |
| ClassificationCache.InvalidationForcesFetch | src/lib/device-classifications-runtime.ts:48-70 | the first read after an invalidation shows the database as it stands |
| ClassificationCache.ReadersSeeTheTable | src/lib/device-classifications-runtime.ts:79-90 | label and group shown are those of a search of a table so fetched |
| UpdateStatus.TextOrderIsTimeOrder | src/lib/aggiornamento-stato.ts:129-133 | comparing printed UTC timestamps as text is comparing instants |
| UpdateStatus.PrintForm | src/lib/aggiornamento-stato.ts:129-133 | the fixed places of year to milliseconds in the printed text |
| UpdateStatus.DigitsAre | src/lib/aggiornamento-stato.ts:129-133 | each place holds decimal digits, zeros in front |
| UpdateStatus.VerdictByInstants | src/lib/aggiornamento-stato.ts:129-173 | with printed timestamps the verdict, with its phase, note or reason, is that of the attempt started at no earlier instant than the request, else of the check that is none, else waiting; an earlier record counts as no record |
| UpdateStatus.WaitingStaysWaiting | src/lib/aggiornamento-stato.ts:134-173 | waiting for one request time is waiting for every later one |
| UpdateStatus.FollowingStops | src/lib/aggiornamento-stato.ts:206-248 | with readings at least 3 s apart following stops within 602 readings, and stays as it stopped whatever is read later |
| UpdateStatus.FollowingMayLast | src/lib/aggiornamento-stato.ts:206-248 | the bound is reached |
| UpdateStatus.CounterIsSilentRun | src/lib/aggiornamento-stato.ts:224-247 | the error counter is the length of the current run of readings without a verdict |
| UpdateStatus.SilenceStops | src/lib/aggiornamento-stato.ts:232-237 | 101 such readings in a row stop it for good |
| UpdateStatus.NextReadingDecides | src/lib/aggiornamento-stato.ts:224-248 | while following, the next reading stops it exactly when later than 1 800 000 ms, or 401, or with a final verdict, or the 101st in a row without one, the motive being the first of these; else it goes on with the run counted |
| UpdateStatus.StoppedIff | src/lib/aggiornamento-stato.ts:224-248 | following has stopped exactly when some reading stopped it, with the motive of the first that did |
| UpdateStatus.MotiveIsEarned | src/lib/aggiornamento-stato.ts:224-248 | each motive for stopping holds exactly when the reading that stopped it says so |
| StatusFile.AnyFileReads | src/lib/aggiornamento-stato.ts:73-116 | whatever JSON the file holds, a good status is read, and writing the same JSON back keeps what is read |
| StatusFile.StoredIsStable | scripts/stato-aggiornamento.mjs:66-71 | writing what was written and parsed changes nothing more |
| StatusFile.DamagedRecordsWait | src/lib/aggiornamento-stato.ts:77-173 | with neither attempt nor check readable every request waits |
| StatusWriter.NextReads | scripts/stato-aggiornamento.mjs:56-154 | from any file, a command that throws leaves it alone and any other is read back from the members it made |
| StatusWriter.AttemptIsTold | scripts/stato-aggiornamento.mjs:78-115 | in every run from any file, the attempt read after `inizio` is the one the later commands tell: its start, the last phase entered, the last `fine` with its message and time, every warning in order |
| StatusWriter.VerdictFollowsAttempt | scripts/stato-aggiornamento.mjs:78-115 | from an `inizio` no earlier than the request until the next one the verdict is "going" in the last phase entered, exactly until a `fine`; then success exactly if the last `fine` says so, with all warnings, and failure otherwise |
| StatusWriter.AnsweredOnceBegun | scripts/stato-aggiornamento.mjs:78-115 | once an attempt began after the request, no later state of the file answers with waiting or no news |
| StatusWriter.VerdictOfRun | src/lib/aggiornamento-stato.ts:134-173 | for every run from an absent file the verdict is that of the last attempt begun, if no earlier than the request, else that of the last check, if no earlier, else to wait |
| StatusWriter.CheckIsLast | scripts/stato-aggiornamento.mjs:123-128 | the check read is that of the last accepted `controllo` |
| StatusWriter.StartedIsLastSuccess | scripts/stato-aggiornamento.mjs:105-122 | in every run from any file started commit and last success are those of the last command that records one, else those the file began with |
| StatusWriter.SuccessIsOfTheAttempt | scripts/stato-aggiornamento.mjs:105-115 | `fine riuscito` records the commit of the last `inizio` |
| StatusWriter.TriesCountAttempts | scripts/stato-aggiornamento.mjs:78-94 | the count of tries is the number of attempts begun on a commit since the first, or since its last success, while no other is begun and none succeeds |
| StatusWriter.StepCounts | scripts/stato-aggiornamento.mjs:78-94 | from any file `inizio` counts one for a new commit or after a success, else one more than the file says |
| StatusWriter.FirstWarning | scripts/stato-aggiornamento.mjs:100-104 | a warning starts the list in any record that has none |
| KnowledgeBase.LinesReadBack | scripts/build-attribution-kb.ts:194-198 | lines with any mixture of LF and CRLF ends read back |
| KnowledgeBase.PrefixShape | scripts/build-attribution-kb.ts:66-83 | a normalised prefix is upper-case hexadecimal of six, seven or nine digits by its width |
| KnowledgeBase.PrefixOfText | scripts/build-attribution-kb.ts:66-83 | every text of the three widths means its leading digits, as many as the width has, when without separators it is hexadecimal and long enough; else nothing |
| KnowledgeBase.OtherWidthsRefused | scripts/build-attribution-kb.ts:66-83 | no other width is accepted |
| KnowledgeBase.SeparatorsIgnored | scripts/build-attribution-kb.ts:76-76 | separators may stand anywhere |
| KnowledgeBase.WidthsNeverShareAKey | scripts/build-attribution-kb.ts:66-83 | prefixes of different widths never share a key |
| KnowledgeBase.PrefixReadsBack | scripts/build-attribution-kb.ts:66-83 | a prefix printed with its width normalises to itself |
| KnowledgeBase.NormalizedIsFixed | scripts/build-attribution-kb.ts:120-128 | object-id normalisation keeps what is on the two absolute arcs, puts any other dotted id under the enterprise arc and refuses the rest; it yields an absolute id and is idempotent |
| KnowledgeBase.SameKeyIff | scripts/build-attribution-kb.ts:120-128 | two ids share a key exactly when equal or one is the other's enterprise form |
| KnowledgeBase.ManufLineReadsBack | scripts/build-attribution-kb.ts:90-103 | a line printed from a row parses to it, with or without the full name |
| KnowledgeBase.ManufLineIff | scripts/build-attribution-kb.ts:90-103 | which lines are rows, and what of them is taken |
| KnowledgeBase.SysObjLineReadsBack | scripts/build-attribution-kb.ts:137-151 | a line printed from a row parses to it, absent columns included |
| KnowledgeBase.SysObjLineIff | scripts/build-attribution-kb.ts:137-151 | which lines are rows, and what of them is taken |
| KnowledgeBase.KindsOfLines | scripts/build-attribution-kb.ts:239-248 | a blank line is all white space, a comment one whose first other character is `#` |
| KnowledgeBase.CountManuf | scripts/build-attribution-kb.ts:235-256 | lines read are blank, comments, malformed and valid, and the rows are the valid lines in order |
| KnowledgeBase.CountSysObj | scripts/build-attribution-kb.ts:258-287 | the same, and the three branch counters sum to the valid lines, the relative one being exactly the non-absolute ids |
| KnowledgeBase.FirstWinsIs | scripts/build-attribution-kb.ts:332-343 | each key holds its first occurrence |
| KnowledgeBase.InsertAll | scripts/build-attribution-kb.ts:332-343 | inserted and conflicting rows sum to the rows; the table is the first-wins one |
| KnowledgeBase.Build | scripts/build-attribution-kb.ts:217-355 | for any two files, lines read are blank, comments, malformed, inserted and conflicting, each counted for what it is, and the three arc counters sum to the valid ids |
| KnowledgeBase.LookupMac | src/lib/attribution/kb.ts:105-125 | the entry with the widest prefix the address starts with; none exactly without one |
| KnowledgeBase.WidestIsFirstOfWidestRows | src/lib/attribution/kb.ts:100-125 | from file to answer: the first row of the file among those with the widest prefix of the address |
| KnowledgeBase.FindSysObjRow | src/lib/attribution/kb.ts:144-163 | the loop over the candidates finds the longest run of segments in the table |
| KnowledgeBase.LongestIsMostSpecific | src/lib/attribution/kb.ts:144-163 | that is the matching key with the most segments; none exactly without one |
| KnowledgeBase.NormalFormIsFound | src/lib/attribution/kb.ts:165-189 | an id is found by its own normal form whenever the table has it |
| KnowledgeBase.ListedIdsAreFound | src/lib/attribution/kb.ts:165-189 | from file to answer: every listed id, absolute or relative, finds the first row with its normal form |
| Sequences.SplitJoin | src/lib/crypto.ts:41-45 | splitting undoes joining separator-free parts |
| Sequences.JoinSplit | src/lib/attribution/kb.ts:144-149 | joining undoes splitting, and the parts hold no separator |

## Left out

- Engines the modelled files import but whose logic is elsewhere: topology and cable map, attribution scoring, credential resolution and conversion, the scanner.
- Command-line scripts that measure or probe, process start-up, systemctl calls, session and role guards, SQL schemas, seed catalogues, CRUD wrappers, React layout and Markdown rendering: no state of their own, a single pass over their input or a call to another program.
- Real cryptography: AES-GCM (NIST SP 800-38D) is an ideal table of sealings, so a random IV is a drawing never used before, and opening succeeds only with the sealing key; scrypt, bcrypt and the computation of code steps are parameters or absent.
- TwoFactor.UserRow.SetSecondCheck: one existing row; an unknown user id (which changes no row) and the other columns of the table are not modelled.
- TwoFactor.ClientsRunStatements: whether a proposal has expired and whether a code is right only decide if a client sends its statement; the model lets every client send it, which covers both.
- JobPolling.OneRoundAtATime: the job identifier and React's rendering; development-only double mounting is not modelled; every request is answered at most once, at any time.
- SqlLike.LikeContainsIsSubstring: NUL characters and SQLite's limit on pattern length are outside the matcher.
- Crypto.HexRoundTrip: text is taken as encodable in UTF-8; unpaired surrogates, which the runtime replaces, are not modelled.
- Crypto.Cipher.DecryptWithKey: the runtime also accepts a tag cut to one of the shorter lengths GCM allows; the ideal table accepts only the whole tag, so a text altered in that way is refused here and opened there.
- Vault.CompleteInversePass: values are whole columns; encrypted texts embedded in longer ones, the all-or-nothing transaction of each file and the clean-up of free pages are not modelled. A run may stop between any two moves, which is more than a transaction allows.
- EnvSecrets.Host.EnsureSecrets: nothing is promised where a runtime value with a pair that pastes the text around the line (`` $` ``, `$'`) replaces a line: there both outcomes occur (`InterpretedValueLost`, `InterpretedValueMayReturn`). The warnings, the file mode and the container checks that precede it are absent.
- CredentialsVault.Store.SyncFromLegacySettings: encryption is transparent and does not fail midway; unreadable tenant databases are those whose scanners are not in the list; timestamps, the extra and launch-mode columns are absent.
- CredentialsVault.SecondImport: `browserUrl` is any function of the LibreNMS rows; its own settings and environment are fixed between the two imports.
- Migration.Host.Migrate: filling the hub is one step (schema, tenant, users and tables, any of which failing fails it); copy and rename act on whole files, halfway faults leave any content; the rollback's own deletions succeed; the sidecar files SQLite itself makes while a database is open, those of the hub included, are absent.
- Tenants.CopyUsers: user names are unique in the source as its schema demands; the dates of a user are absent.
- Tenants.HubDb.EnsureHubTenantAndAccess: the file copies around it in scripts/enable-multitenant.ts are not modelled.
- Choices.ApplyUserRules: the locale's comparison is any total preorder, priorities are integers, and the sort is the stable insertion sort of `Sorting` (any stable sort gives the same list: `StableSortIsSort`).
- Choices.ModelFromPortsOnly: a stored text that parses to JSON null, on which the original throws, is not modelled.
- ClassificationCache.RuntimeCache.GetEntry: an undefined tenant is the blank one.
- UpdateStatus.TextOrderIsTimeOrder: years from 0000 to 9999, as the printed form has them; leap seconds are not printed.
- StatusWriter.VerdictOfRun: times are not blank and commits not white space, as the scripts give them; rounding of a count beyond 2^53 and the temporary file behind the rename are not modelled; what `Number` makes of a text, list or object is any function.
- KnowledgeBase.Build: reading and downloading the two files, writing the artefact and its metadata rows.
- KnowledgeBase.ListedIdsAreFound: ids as the files write them; the lookup's rewriting of `MIB::`, `enterprises.` and `iso.` spellings is not modelled.
- Oid.ScanRules: the special cases by description that precede the table in the classifier, and the rule tables by text, host name and vendor, which are data.
