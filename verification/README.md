# Tarka: a verified model of the evidence pipeline

Tarka takes fraud evidence in through a pool of queue workers, writes each manifest to ClickHouse, collects the
fingerprints of a tenant into batches on a Redis list, and seals every full batch with a Merkle root in an audit
anchor. Around that pipeline stand a rule compiler's documentation generator, a calibration service, a cold-tier
archiver, an installer, a deployment helper, an export consumer and a replay check. This project models the parts of
that system that hold state or transform data, and proves what they guarantee.

`dafny verify dfyconfig.toml` checks everything.

## How it is built

- **Ingest** (`Merkle`, `BatchRecord`, `BatchAnchor`, `SinkWorker`, `IngestProtocol`, `IngestSafety`, `IngestRedis`,
  `IngestRefinement`, `IngestProgram`).
  `BatchAnchor` and `SinkWorker` are the program as one worker executes it, with Redis as an object that is updated in
  place. `IngestProtocol` cuts the same program into its atomic effects and lets any number of workers take them in any
  order. A run is any sequence of actions: `Begin` may start any payload at any time, so it covers every first delivery
  and every re-run by the queue, and `Crash` may end any attempt anywhere, so it covers every raise and every death. The
  script that appends and drains, and the INCR that numbers a batch, are two separate actions. `IngestSafety` proves what
  holds after every run. `IngestRedis` shows that one flat Redis keyspace carries the per-tenant lists and counters, and
  `IngestRefinement` that a run of the program without interference is a sequence of actions of the protocol with the
  same effects. `IngestProgram` is many runs of the program at once, cut at their outside calls, on the flat keyspace and
  with the replies as text; every interleaving of it follows the protocol step by step.
- **Rule documentation** (`RuleExpression`, `RulePrinter`, `RuleText`, `RuleLogic`, `RuleDocument`). Expressions get the
  usual Boolean meaning; the extractor, the printed logic line, its text and the document scan are related to it. For
  trees with faults, signals, errors, lines and records are described node by node.
- **Calibration** (`CalibrationRegistry`, `CalibrationScore`). The dictionary of profiles is proved to refine a
  definition that reads the request history alone. Scores are over reals.
- **Cold tier** (`ColdTierExport`, `ColdTierSafety`). The export loop as it runs alone, and the export against a live
  table with deletes that take effect at any later time.
- **Smaller cores** (`InstallState`, `Dotenv`, `PromoteConsumer`, `DriftLock`, `Percentile`).
- `Text` and `Basics` hold the Python string operations and the option type.

SHA-256 is a parameter. No theorem assumes that it has no collisions; the binding theorems find one among the inputs that
were hashed for the two batches in question.

## What turned out false

Each of these has a lemma with failing inputs and a lemma with the condition under which the property holds.

- A drained batch can be lost. The script takes the records off the list before the anchor row is written, so a worker
  that dies or raises in between takes its batch with it, and nothing ever anchors it again (`BatchCanBeLost`,
  `LostForGood`). Batches are kept exactly in the runs where no attempt ends there (`LostExactly`).
- Batch numbers need not follow the order of the drains, since the INCR is a second call (`NumbersCanOvertake`). They do
  exactly in the runs where no INCR overtakes that of an earlier drain (`NumbersInDrainOrderExactly`).
- The root alone does not identify a batch: the last leaf of an odd level is doubled (`RepeatedLastLeafSharesRoot`), and
  a node passes as a leaf (`NodePassesAsLeaf`). Two batches share a root exactly when the tree of the lower one is the top
  of the tree of the other (`SameRootExactly`); for one height, when they build the same tree (`SameHeightExactly`); for
  one size, when they are equal (`RootAndCountBindBatch`). The only other way is a collision among what was hashed for
  the two, which the lemmas return.
- A purging export skips rows, because the offset advances although the purged page is gone (`FirstRowSkipped`). With
  deletes that take effect at once it is complete exactly when one page holds everything (`PurgingRunCompleteExactly`).
- Deletes go by manifest id only. A row that shares its id with an exported row can be lost (`SharedIdIsLost`,
  `LateRowIsLost`). No run loses a row exactly when no row of the window shares its id with another row that the delete's
  tenant clause matches (`KeptExactly`).
- The query strips its tenant and takes dots, colons and dashes; the delete wants an identifier. A purge for any other
  tenant uploads at most one page, deletes nothing and stops (`PurgeManifestIds`, `RefusedTenantStops`).
- The calibration key joins tenant and profile with a colon, so a pair can be served another pair's profile
  (`ColonLeaks`). A pair is isolated from all other traffic that the service lets through exactly when its key has no
  other reading: no other colon splits it into ids that a publication may have, or into path segments with which a
  version of the pair's own could be activated (`IsolatedExactly`). Pairs without a colon are isolated
  (`ColonFreeIsolated`).
- The text of a logic line does not identify a rule, because signal names, operators and plain values are printed without
  quotes: for all names there are two rules with one text and different truth (`NamesCanImitateConnectives`). Rules whose
  words look like no connective are identified by their text (`EqualTextsExactly`), and another rule with the text of
  such a rule says the same exactly when it is one of them (`TextIdentifiesExactly`).
- The resolver adds the core module after the fixpoint. Its result is closed exactly when the selection already needs
  what the core requires (`ClosedExactly`, `CoreCanMissRequirements`).
- The text hashed into an artifact name can belong to two events of a pack exactly when the pack hash or the time holds
  a bar (`SharesTextExactly`).

## Model

| member | source | states |
|---|---|---|
| `Merkle.NextLevel` | services/ingestor/merkle.py:22-29 | Node j of the next level is the hash of nodes 2j and 2j + 1 in that order, the last node of an odd level paired with itself. |
| `Merkle.ParentsKeepRoot` | services/ingestor/merkle.py:20-30 | Replacing a level by its parents leaves the top-down root of the tree unchanged, for every level and height. |
| `Merkle.MerkleRootSha256` | services/ingestor/merkle.py:9-30 | The level-by-level loop computes the root of the tree defined by halving the leaves; it reports no leaves and a leaf that is not 32 bytes exactly when that is the case. |
| `Merkle.EqualRootsCollide` | services/ingestor/merkle.py:20-30 | Two different trees of one height with one root: one input hashed for the first and one hashed for the second are different and have one hash. |
| `Merkle.RootAndCountBindBatch` | services/ingestor/merkle.py:9-30 | Hashing two different batches of one size to one root meets a collision between an input of the one and an input of the other: root and manifest count fix the batch. |
| `Merkle.SameRootExactly` | services/ingestor/merkle.py:9-30 | Any two batches have one root if and only if the tree of the lower one is the top of the tree of the other, or hashing them meets a collision. |
| `Merkle.SameHeightExactly` | services/ingestor/merkle.py:9-30 | Batches of one height have one root if and only if they build the same tree, or hashing them meets a collision. |
| `Merkle.RepeatedLastLeafSharesRoot` | services/ingestor/merkle.py:24-28 | For every hash, an odd batch and the same batch with its last leaf repeated share a root. |
| `Merkle.NodePassesAsLeaf` | services/ingestor/merkle.py:20-30 | For every hash, the root of two leaves is the hash of the two in order, and a batch of that one leaf has the same root. |
| `Text.StripExactly` | services/ingestor/batch_anchor.py:57 | Stripping takes white space off both ends, all of it and nothing else. |
| `BatchRecord.FromHexToHex` | services/ingestor/batch_anchor.py:40-62 | Base16 (section 8 of RFC 4648) reads back every byte string that it wrote. |
| `BatchRecord.HexPlaces` | services/ingestor/batch_anchor.py:62 | Every byte becomes two lower-case digits, the high one first. |
| `BatchRecord.UuidRoundTrip` | services/ingestor/batch_anchor.py:39-62 | The UUID constructor, with its prefix, brace and dash removal, reads back every hex form of 16 bytes. |
| `BatchRecord.ParseWritten` | services/ingestor/batch_anchor.py:35-43 | Parsing a written record returns exactly the id and the digest; it fails exactly when the digest is not 32 bytes. |
| `BatchAnchor.ClashExactly` | services/ingestor/batch_anchor.py:57-61 | List keys and counter keys of all tenants stay apart if and only if neither key base extends the other. |
| `BatchAnchor.LuaAppend` | services/ingestor/batch_anchor.py:18-32 | A reply without a batch leaves the list one longer and below the size; a batch has exactly the size and, with what is left, is the list and the new record. |
| `BatchAnchor.Redis.EvalBatchAppend` | services/ingestor/batch_anchor.py:18-32 | The script on the real keyspace: push, length, range and trim amount to the list function, an emptied list's key disappears, and a key of the wrong type changes nothing. |
| `BatchAnchor.Redis.Incr` | services/ingestor/batch_anchor.py:103 | INCR returns and stores one more than the counter, counting a missing one as 0, and fails without effect on a key of the wrong type. |
| `BatchAnchor.ReadTokens` | services/ingestor/batch_anchor.py:99-101 | All tokens are read in order, or none if one does not parse. |
| `BatchAnchor.HandleReply` | services/ingestor/batch_anchor.py:70-113 | Which reply leads to which error or result; the counter moves only after every check and the root have gone through. |
| `BatchAnchor.SealTokens` | services/ingestor/batch_anchor.py:99-113 | A record that does not parse raises before the number is taken; otherwise the anchor of the parsed batch under the next number. |
| `BatchAnchor.SealBatch` | services/ingestor/batch_anchor.py:101-113 | The anchor carries the hex of the root over all digests in order, the count, the id and digest of the first and of the last record, and one more than the counter. |
| `BatchAnchor.AppendManifestAndMaybeFinalize` | services/ingestor/batch_anchor.py:46-113 | One call on any store, for any tenant text and digest: the error raised or the anchor returned, and the whole new store. |
| `BatchAnchor.AppendStaysClean` | services/ingestor/batch_anchor.py:57-113 | On a store that only workers have written, a call raises nothing, keeps the store that way, and touches no key but the tenant's two. |
| `SinkWorker.Retry` | services/ingestor/clickhouse_sink.py:82-142 | Retrying stops at the first success, makes at least one and at most the given number of calls, and fails only when all of them failed. |
| `SinkWorker.Worker.Push` | services/ingestor/arq_worker.py:142-160 | A push adds the payload to that queue only, or raises without effect. |
| `SinkWorker.Worker.ParkFailedClickhouseInsert` | services/ingestor/arq_worker.py:64-113 | Postgres when configured and working, otherwise the Redis queue, otherwise a raise; never both. |
| `SinkWorker.Worker.SinkManifest` | services/ingestor/arq_worker.py:116-218 | The payload goes to exactly the place that its decoding and the outcome of each call determine; Redis lists and anchors change only when that is the evidence table; exactly when a run raises. |
| `SinkWorker.Worker.FinishBatch` | services/ingestor/arq_worker.py:189-218 | After the insert: the append's effect on Redis, an anchor row exactly for a sealed batch of which one of five insert attempts succeeds, and a raise exactly otherwise. |
| `IngestProtocol.TenantAppendOk` | services/ingestor/batch_anchor.py:18-32 | Appending keeps drains plus list equal to the history, and the numbering sound. |
| `IngestProtocol.Reachable` | services/ingestor/arq_worker.py:116-218 | Every state of every run satisfies the invariant on tenants, evidence rows, holders of batches, anchors and workers. |
| `IngestProtocol.ApplyGrows` | services/ingestor/arq_worker.py:116-218 | No action takes anything back from the evidence table, the anchors or the four queues. |
| `IngestProtocol.HoldersStep` | services/ingestor/batch_anchor.py:91-113 | Every action keeps each drained batch with at most one worker, numbered at most once and anchored at most once under its own number. |
| `IngestProtocol.RowsStep` | services/ingestor/arq_worker.py:171-197 | Every action keeps list entries pointing to different evidence rows of the same manifest. |
| `IngestSafety.BatchesPartitionHistory` | services/ingestor/batch_anchor.py:18-32 | For every run and tenant, the drained batches in drain order followed by the pending list are the tenant's append history. |
| `IngestSafety.FixedSizeBatches` | services/ingestor/batch_anchor.py:18-32 | With one batch size b, n appends have made n / b batches of exactly b and left n % b pending. |
| `IngestSafety.OtherTenantsUntouched` | services/ingestor/batch_anchor.py:57-69 | Only a worker with a manifest of a tenant changes that tenant's list or counter. |
| `IngestSafety.NumbersContiguous` | services/ingestor/batch_anchor.py:63-103 | The numbers given out for a tenant are 1, 2, 3 and so on, each to a different drain, never more than there were drains, whichever workers die. |
| `IngestSafety.AnchorNumbersUnique` | services/ingestor/batch_anchor.py:103-113 | No two anchor rows of a tenant share a number or a drained batch. |
| `IngestSafety.NumbersInDrainOrderExactly` | services/ingestor/batch_anchor.py:63-103 | Number n is the n-th drain for all n if and only if no INCR of the run came before that of an earlier drain. |
| `IngestSafety.PromptNumbersInDrainOrder` | services/ingestor/batch_anchor.py:63-103 | If each drain is numbered before the next drain, numbers follow the drains and at most one drain waits. |
| `IngestSafety.NumbersCanOvertake` | services/ingestor/batch_anchor.py:63-103 | For any two manifests of a tenant, a run of two workers that numbers their batches in the wrong order. |
| `IngestSafety.AnchorCoversEvidence` | services/ingestor/arq_worker.py:171-218 | The rows behind an anchor are as many as its count says, all different evidence rows of its tenant; its root is the root over their digests in order, and its ids and leaves are those of the first and the last of them. |
| `IngestSafety.AnchorBindsEvidence` | services/ingestor/batch_anchor.py:99-113 | Two anchor rows of any runs and tenants with one root and one count cover rows with the same digests in the same order, or hashing those meets a collision. |
| `IngestSafety.NoRowAnchoredTwice` | services/ingestor/arq_worker.py:171-218 | No evidence row is covered by two anchor rows. |
| `IngestSafety.ScriptReplyAlwaysAccepted` | services/ingestor/batch_anchor.py:84-101 | In every run the reply is accepted: the worker returns or holds a batch of exactly the size, so the status, slice and record errors never happen. |
| `IngestSafety.ReturnedExactlyOnePlace` | services/ingestor/arq_worker.py:116-197 | An attempt that returned left its payload in exactly one of the five places, and appended a record exactly when that is the evidence table. |
| `IngestSafety.WritesAreDeposits` | services/ingestor/arq_worker.py:64-187 | After every run, an action writes to one of the five places exactly what it puts on its worker's account: the worker's own payload or its row, once; it leaves every other place alone. |
| `IngestSafety.PlacesHoldTheirOwn` | services/ingestor/arq_worker.py:64-187 | After every run, each queue holds only delivered payloads that decode as that queue is for, Postgres only where it is configured, and each evidence row is that of a delivered payload. |
| `IngestSafety.LostExactly` | services/ingestor/arq_worker.py:189-218 | Every drained batch is anchored or on its way if and only if no attempt of the run ended between its drain and its anchor row. |
| `IngestSafety.LostForGood` | services/ingestor/arq_worker.py:189-218 | A batch that no worker holds and no row anchors stays that way under every action. |
| `IngestSafety.BatchCanBeLost` | services/ingestor/arq_worker.py:189-218 | For every manifest, a run that loses its batch. |
| `IngestRedis.LuaOnRecords` | services/ingestor/batch_anchor.py:18-32 | The script treats records as opaque: it acts alike on entries and on their text. |
| `IngestRedis.StoreShowsRun` | services/ingestor/batch_anchor.py:57-69 | After every run the flat keyspace shows exactly each tenant's pending list and counter, if the key bases cannot clash. |
| `IngestRefinement.SinkRefinesProtocol` | services/ingestor/arq_worker.py:116-218 | From every reachable state, a run of the program without interference is a sequence of its worker's actions with the same queues, rows, store and anchors, and it returns exactly when the worker does. |
| `IngestRefinement.FinishReaches` | services/ingestor/arq_worker.py:189-218 | The part after the insert is the script call, and for a sealed batch the INCR and the anchor row or a raise. |
| `IngestProgram.ProgramFollowsProtocol` | services/ingestor/arq_worker.py:116-218 | Every interleaving of any number of runs, cut at their outside calls, leads to the queues, rows, anchors, lists and counters of the protocol's run of the same actions, with every worker at the same point. |
| `IngestProgram.ReplyNeverRejected` | services/ingestor/batch_anchor.py:70-101 | In no interleaving does a check of the script's reply end a job: the worker is done or holds a batch of exactly the size. |
| `IngestProgram.ProgramNumbersUnique` | services/ingestor/batch_anchor.py:103-113 | In every interleaving the anchor rows of a tenant carry different numbers. |
| `RuleExpression.SignalsFromExpression` | scripts/docs/generate_rule_logic_docs.py:113-174 | The recursion over the shared error list returns the signals, and appends the errors, of the extraction function, which SignalsExactly and ErrorsExactly describe node by node. |
| `RuleExpression.SignalsExactly` | scripts/docs/generate_rule_logic_docs.py:113-174 | For every tree, faulty or not, x is among the signals if and only if a comparison with the stripped name x is reached through `not` nodes and list-carrying junctions within 96 levels. |
| `RuleExpression.ErrorsExactly` | scripts/docs/generate_rule_logic_docs.py:113-174 | For every tree an error is recorded if and only if a reached node has that fault, at the path of the node; what is too deep is reported and not looked into. |
| `RuleExpression.ErrorsInOrder` | scripts/docs/generate_rule_logic_docs.py:113-174 | The errors stand in the order of the tree and no two at one path, so each reached faulty node has exactly one. |
| `RuleExpression.SignalsFromChildren` | scripts/docs/generate_rule_logic_docs.py:148-160 | The loop over children does the same in order. |
| `RuleExpression.SilentExactly` | scripts/docs/generate_rule_logic_docs.py:113-174 | No error is recorded if and only if the tree is well-formed and at most 96 levels high. |
| `RuleExpression.SilentFindsLeaves` | scripts/docs/generate_rule_logic_docs.py:113-174 | Without an error the signals are exactly the leaf names. |
| `RuleExpression.LeavesDecideTruth` | scripts/docs/generate_rule_logic_docs.py:113-174 | Two environments that agree on the leaf names give a rule the same truth value. |
| `RulePrinter.UnescapeEscaped` | scripts/docs/generate_rule_logic_docs.py:177-184 | The JSON escape is undone by reading it, for every string. |
| `RulePrinter.ReadFormatted` | scripts/docs/generate_rule_logic_docs.py:177-184 | The printed expected value determines the value. |
| `RulePrinter.ParsePrinted` | scripts/docs/generate_rule_logic_docs.py:187-212 | Parsing the printed tokens of a well-formed rule, with anything after them, returns the rule with single-child AND and OR collapsed. |
| `RulePrinter.CollapseKeepsTruth` | scripts/docs/generate_rule_logic_docs.py:187-212 | Collapsing keeps the truth value in every environment. |
| `RulePrinter.EqualLinesEquivalent` | scripts/docs/generate_rule_logic_docs.py:187-212 | Rules whose lines have equal tokens are equivalent. |
| `RulePrinter.EqualLinesExactly` | scripts/docs/generate_rule_logic_docs.py:187-212 | The tokens of two lines are equal if and only if the collapsed rules are. |
| `RuleText.NamesCanImitateConnectives` | scripts/docs/generate_rule_logic_docs.py:191-201 | For all names, operators and values, the rule of two and the rule of three comparisons built from them are well-formed and have one text, and there are signals under which the first holds and the second does not. |
| `RuleText.ReadLineText` | scripts/docs/generate_rule_logic_docs.py:187-212 | A reader gives back the tokens of every line whose words look like no connective. |
| `RuleText.ReadCleanRule` | scripts/docs/generate_rule_logic_docs.py:187-212 | From the text of a rule with such words the reader and the parser give back the rule, single-child AND and OR collapsed. |
| `RuleText.EqualTextsExactly` | scripts/docs/generate_rule_logic_docs.py:187-212 | Two such rules have one text if and only if their collapsed forms are equal, and then they agree in every environment. |
| `RuleText.TextIdentifiesExactly` | scripts/docs/generate_rule_logic_docs.py:187-212 | A rule with the text of such a rule collapses to the same expression if and only if it is such a rule itself. |
| `RuleLogic.TokensSpellText` | scripts/docs/generate_rule_logic_docs.py:187-212 | For every tree, the tokens of the line spell the text that the program builds by joining parts. |
| `RuleLogic.LineShowsExactly` | scripts/docs/generate_rule_logic_docs.py:187-212 | For every tree, a comparison, an empty junction, `?` or `<kind>` stands in the line if and only if there is such a node. |
| `RuleLogic.DisplayExactly` | scripts/docs/generate_rule_logic_docs.py:191-194 | Which names and operators print as a given text: a missing one as `?`, the others as Python spells them. |
| `RuleDocument.ParseRule` | scripts/docs/generate_rule_logic_docs.py:266-305 | One rule: its record if it gets one, its id claimed, its complaints appended. |
| `RuleDocument.ParseRulesInDocument` | scripts/docs/generate_rule_logic_docs.py:252-307 | The loop yields one record per named, new rule with an expression, in order, with sorted unique signals, and exactly the document's complaints. |
| `RuleDocument.ComplaintsExactly` | scripts/docs/generate_rule_logic_docs.py:266-305 | A complaint is made if and only if a rule is no mapping, has no id, repeats an id, has no expression, or else has that fault in its expression. |
| `RuleDocument.RecordsExactly` | scripts/docs/generate_rule_logic_docs.py:266-305 | Exactly the rules with a new id and an expression get a record, in order, faulty or not: sorted names of the comparisons that are reached, and the line as text. |
| `RuleDocument.RecordIdsDistinct` | scripts/docs/generate_rule_logic_docs.py:274-278 | Records of one document never share an id. |
| `RuleDocument.RecordUnique` | scripts/docs/generate_rule_logic_docs.py:293-305 | A rule determines its record, whatever the order in which the set of its signals is walked. |
| `RuleDocument.CleanScanExactly` | scripts/docs/generate_rule_logic_docs.py:252-307 | A document scans without a complaint if and only if every rule is named, well-formed, within the depth limit, and no id repeats. |
| `RuleDocument.CleanScanDocumentsAll` | scripts/docs/generate_rule_logic_docs.py:252-307 | Then every rule has a record. |
| `RuleDocument.RecordTellsRule` | scripts/docs/generate_rule_logic_docs.py:285-305 | A complaint-free record's signals are the leaf names and decide the rule's truth, and the rule read back from its line has that truth. |
| `CalibrationRegistry.KeysClashExactly` | services/calibration-service/main.py:90-91 | When two tenant and profile pairs share a key: exactly when one tenant is the other followed by a colon and the start of its profile. |
| `CalibrationRegistry.RepublishedFinds` | services/calibration-service/main.py:173-192 | After a publish the bucket is strictly sorted, finds the new profile under its version and everything else as before. |
| `CalibrationRegistry.StoreRefinesHistory` | services/calibration-service/main.py:172-212 | After every run of publish and activate, each bucket is strictly sorted, the store is the map from key and version to the last publication, and the active version is in its bucket. |
| `CalibrationRegistry.LookupRefinesHistory` | services/calibration-service/main.py:94-108 | A lookup returns the last publication of the active version, fails exactly when nothing was published, and never because the active version is missing. |
| `CalibrationRegistry.LastPublishedExactly` | services/calibration-service/main.py:173-191 | The last publication of a version is the one at the last position of the requests that publishes it. |
| `CalibrationRegistry.ActiveVersionExactly` | services/calibration-service/main.py:187-212 | The active version is that of the last activation of an already published version, or else of the first publication. |
| `CalibrationRegistry.LookupByPosition` | services/calibration-service/main.py:94-108 | After any requests a lookup answers with the last publication of the active version, both read off positions, and fails exactly when nothing was published. |
| `CalibrationRegistry.Registry.constructor` | services/calibration-service/main.py:34-37 | The dictionary starts empty. |
| `CalibrationRegistry.Registry.PublishProfile` | services/calibration-service/main.py:173-192 | Filtering, appending and sorting in place is one publish step; the first publication becomes active. |
| `CalibrationRegistry.Registry.ActivateProfile` | services/calibration-service/main.py:201-212 | Status 422, 404 or 200 exactly by version and presence, and the new store. |
| `CalibrationRegistry.Registry.GetProfile` | services/calibration-service/main.py:94-108 | For any contents of the two dictionaries: a profile of the active version, or the last of the bucket when none is active, or the failure that applies. |
| `CalibrationRegistry.FindLoop` | services/calibration-service/main.py:103-108 | The scan returns the profile of the version, if any. |
| `CalibrationRegistry.WithoutLoop` | services/calibration-service/main.py:177 | The scan keeps the other versions in order. |
| `CalibrationScore.DriftHint` | services/calibration-service/main.py:118-144 | The scan from the end finds the drift of the latest matching snapshot. |
| `CalibrationScore.LatestRowExactly` | services/calibration-service/main.py:118-139 | The row that counts is the pair's row at the last position of the log. |
| `CalibrationScore.ResolveBandAdjustment` | services/calibration-service/main.py:263-273 | The loop returns the adjustment of the first band that holds the confidence, and zero when none does. |
| `CalibrationScore.ScoreTerms` | services/calibration-service/main.py:277-305 | A score is the baseline plus the first fitting band's adjustment, less 0.02 from ten events and 0.05 from twenty-five, less a quarter of the latest mean's distance from 0.5, cut to [0, 1]. |
| `CalibrationScore.ScoreOfTraffic` | services/calibration-service/main.py:277-305 | After any traffic the bands are those of the profile that the requests leave active, none without a publication, and the latest snapshot is the last of the pair's own. |
| `CalibrationScore.ScoreBounded` | services/calibration-service/main.py:277-305 | The score lies in [0, 1], no further from the baseline than the delta and on the delta's side. |
| `CalibrationScore.CapNeverBinds` | services/calibration-service/main.py:277-305 | The drift penalty lies within [-0.125, 0], so its cap of 0.15 never applies. |
| `CalibrationScore.ScoreMonotone` | services/calibration-service/main.py:277-305 | More events in the hour or more drift never raise the score. |
| `CalibrationScore.OwnTrafficDecidesScore` | services/calibration-service/main.py:90-144 | After any traffic in which no other pair's request shares the key, a pair's score is the one that its own traffic alone would give. |
| `CalibrationScore.ColonFreeTenants` | services/calibration-service/main.py:90-91 | Requests of colon-free tenants never share a key with a pair of another colon-free tenant. |
| `CalibrationScore.IsolatedExactly` | services/calibration-service/main.py:64-144 | All admitted traffic of other pairs leaves a pair's score alone, for every baseline and count, if and only if no other colon of its key gives ids that may publish, or path segments that may activate what the pair itself may publish. |
| `CalibrationScore.ColonFreeIsolated` | services/calibration-service/main.py:90-144 | A pair whose ids have no colon is isolated. |
| `CalibrationScore.ColonLeaks` | services/calibration-service/main.py:90-91 | With a colon in the tenant id, a profile published for one tenant is served to another. |
| `ColdTierExport.PagesComplete` | scripts/data_lifecycle/cold_tier_evidence_to_s3.py:432-497 | Without purge the pages concatenated are the rows in scope, in order, each once. |
| `ColdTierExport.FirstRowSkipped` | scripts/data_lifecycle/cold_tier_evidence_to_s3.py:432-497 | Once the offset has moved, a purging run never sees the first remaining row. |
| `ColdTierExport.PurgingRunCompleteExactly` | scripts/data_lifecycle/cold_tier_evidence_to_s3.py:432-497 | A purging run with immediate deletes exports every row if and only if they fit one page. |
| `ColdTierExport.PurgeCutsOut` | scripts/data_lifecycle/cold_tier_evidence_to_s3.py:303-331 | With unique ids, purging a page removes exactly that page. |
| `ColdTierExport.PurgedExactly` | scripts/data_lifecycle/cold_tier_evidence_to_s3.py:303-334 | On any table a purge takes out exactly the rows of the tenant, if there is one, whose id a row of the page has. |
| `ColdTierExport.UploadWithRetries` | scripts/data_lifecycle/cold_tier_evidence_to_s3.py:258-300 | Success if and only if an attempt within the limit is stored after transient failures only; at most the given attempts. |
| `ColdTierExport.PurgeManifestIds` | scripts/data_lifecycle/cold_tier_evidence_to_s3.py:303-331 | A purge succeeds exactly for no ids, or for a tenant that is none or an identifier and ids that all look like UUIDs; the statements together name exactly the ids in chunks of at most 500, or whole chunks before the first bad id. |
| `ColdTierExport.PurgeableScope` | scripts/data_lifecycle/cold_tier_evidence_to_s3.py:118-128 | A tenant that the delete accepts is scoped by the query in the same way. |
| `ColdTierExport.WindowExactly` | scripts/data_lifecycle/cold_tier_evidence_to_s3.py:118-163 | The query takes the rows with a time before the cutoff, of all tenants when none or a blank one is given and else of the stripped one, and is refused exactly for a tenant with another character. |
| `ColdTierExport.PurgeableExactly` | scripts/data_lifecycle/cold_tier_evidence_to_s3.py:63-66 | The delete accepts exactly no tenant, or letters, digits and underscores with no digit first. |
| `ColdTierExport.SendChunks` | scripts/data_lifecycle/cold_tier_evidence_to_s3.py:324-331 | The chunk loop sends every id once, in order, and stops before the chunk with a bad id. |
| `ColdTierExport.PurgedTwice` | scripts/data_lifecycle/cold_tier_evidence_to_s3.py:481-489 | The purges of two pages are one purge of both. |
| `ColdTierExport.ExportPage` | scripts/data_lifecycle/cold_tier_evidence_to_s3.py:446-490 | A page goes through if and only if it is stored and, with purge, the tenant and every id are accepted; it is deleted only after it was uploaded; a failed upload changes nothing, a refused id leaves a stretch at the start of the uploaded page deleted, and a refused tenant none of it. |
| `ColdTierExport.Export` | scripts/data_lifecycle/cold_tier_evidence_to_s3.py:432-500 | The loop ends; the run goes on exactly as long as pages go through, and is done if and only if all do; the count, the objects and the purged rows are exactly those of the pages that went through, plus the uploaded page at which a purge stopped; every row is still in the table or in an object; new objects hold only rows older than the cutoff and of the tenant, and every other row stays. |
| `ColdTierExport.CompleteWithoutPurge` | scripts/data_lifecycle/cold_tier_evidence_to_s3.py:432-500 | A run without purge whose uploads go through is done, leaves the table alone, counts the rows in scope and uploads exactly them, in order, each once. |
| `ColdTierExport.ExportsExactlyDue` | scripts/data_lifecycle/cold_tier_evidence_to_s3.py:432-500 | In the script's own options: without purge, and with uploads that go through, a row is in a new object if and only if it is in the table, older than the cutoff and of the tenant, if one is given. |
| `ColdTierExport.ExhaustedUploadStops` | scripts/data_lifecycle/cold_tier_evidence_to_s3.py:259-300 | When none of the allowed attempts stores the first page, the run fails, and table and objects are as before. |
| `ColdTierExport.RefusedTenantStops` | scripts/data_lifecycle/cold_tier_evidence_to_s3.py:320-323 | A purge for a tenant that is no identifier deletes nothing, uploads at most one page and is done only for an empty scope. |
| `ColdTierSafety.Safe` | scripts/data_lifecycle/cold_tier_evidence_to_s3.py:432-500 | Every state of every run, with deletes taking effect at any later time, satisfies the archive invariant, unless a row of the window shares its id with another row that the deletes match. |
| `ColdTierSafety.NoRowLost` | scripts/data_lifecycle/cold_tier_evidence_to_s3.py:468-490 | At every step of such a run each row ever in the table is still there or in an uploaded object; a row not older than the cutoff, or of another tenant, is still there and in no object. |
| `ColdTierSafety.RowsNotDueStay` | scripts/data_lifecycle/cold_tier_evidence_to_s3.py:118-163 | The same in the script's options: cutoff and tenant as given on the command line. |
| `ColdTierSafety.ArchiveIsGenuine` | scripts/data_lifecycle/cold_tier_evidence_to_s3.py:131-166 | In every run, objects hold only rows that were in the table, older than the cutoff and of the tenant. |
| `ColdTierSafety.OutstandingDeletesHarmless` | scripts/data_lifecycle/cold_tier_evidence_to_s3.py:303-331 | Every outstanding delete of such a run would hit archived rows only. |
| `ColdTierSafety.SharedIdIsLost` | scripts/data_lifecycle/cold_tier_evidence_to_s3.py:303-331 | For every table with a row outside the window that shares its id with a row of the window, the run that fetches the whole window as one page, in any order, goes on to lose a row. |
| `ColdTierSafety.LateRowIsLost` | scripts/data_lifecycle/cold_tier_evidence_to_s3.py:303-331 | A row inserted under the id of a row that has just been exported is lost in some run. |
| `ColdTierSafety.KeptExactly` | scripts/data_lifecycle/cold_tier_evidence_to_s3.py:432-500 | No purging run over a set of rows, with any inserts among them, loses a row if and only if no row of the window shares its id with another row that the deletes match. |
| `ColdTierSafety.NoPurgeKeepsAll` | scripts/data_lifecycle/cold_tier_evidence_to_s3.py:468-490 | Without purge the table keeps every row in every run. |
| `InstallState.ResolvesIsLeast` | tools/tarka.py:276-290 | What the resolver returns is the least closed set with the selection and the core. |
| `InstallState.ClosedExactly` | tools/tarka.py:276-290 | For any registry and selection, the result is closed if and only if the selection needs everything that the core requires. |
| `InstallState.CoreCanMissRequirements` | tools/tarka.py:288-290 | For every core with a requirement, the empty selection resolves to a set that is not closed. |
| `InstallState.ResolutionUnique` | tools/tarka.py:276-290 | The list depends on the registry and the selection alone, not on the order in which the sets are walked. |
| `InstallState.AddRequirements` | tools/tarka.py:283-287 | One requirement list is added completely, and only needed modules are. |
| `InstallState.Pass` | tools/tarka.py:281-287 | A pass that changes nothing leaves a closed set. |
| `InstallState.Fixpoint` | tools/tarka.py:278-287 | The loop ends with a closed set that holds the selection and only what it needs. |
| `InstallState.ResolveDependencies` | tools/tarka.py:276-290 | The result is sorted and holds exactly the core and the modules that the selection reaches. |
| `InstallState.SavesKeepsClosed` | tools/tarka.py:349-384 | Install, add and remove keep the saved set empty or closed. |
| `InstallState.AlwaysEmptyOrClosed` | tools/tarka.py:349-384 | So it is after every run of commands. |
| `InstallState.InstallLeavesExactly` | tools/tarka.py:316-384 | An install leaves exactly the core and what its selection needs, whatever was installed before. |
| `InstallState.RefusedChangesNothing` | tools/tarka.py:830-887 | A command with an unknown module, the removal of a required one and an empty install leave the state alone. |
| `InstallState.RemoveTakesExactly` | tools/tarka.py:875-898 | A module disappears if and only if it was named and nothing remaining needs it; with nothing installed the core is left. |
| `InstallState.AddKeepsAndBringsNeeded` | tools/tarka.py:830-853 | Adding keeps everything and brings only what the request needs, and the core. |
| `InstallState.Installer.constructor` | tools/tarka.py:254-257 | Nothing is installed at first. |
| `InstallState.Installer.CmdInstall` | tools/tarka.py:316-384 | The saved set is the resolution of a known, non-empty selection; otherwise it stays. |
| `InstallState.Installer.CmdAdd` | tools/tarka.py:830-853 | The saved set is the resolution of what was there and the known request; otherwise it stays. |
| `InstallState.Installer.CmdRemove` | tools/tarka.py:875-898 | The saved set is the resolution of what remains, unless an unknown or required module was named. |
| `Dotenv.EscapeIsEncode` | infra/deploy/fastapi_env.py:47-55 | The four chained replacements are one encoding, character by character. |
| `Dotenv.ReadEncoded` | infra/deploy/fastapi_env.py:47-55 | A standard reader finds the closing quote and gives back every value. |
| `Dotenv.EncodedOnOneLine` | infra/deploy/fastapi_env.py:47-55 | No encoded value holds a line break. |
| `Dotenv.ReadWritten` | infra/deploy/fastapi_env.py:47-55 | Reading a written line gives its key and any value back. |
| `Dotenv.ReadBlockWritten` | infra/deploy/fastapi_env.py:58-81 | Splitting a block by lines recovers every key and value in order. |
| `Dotenv.DotenvBlockReadable` | infra/deploy/fastapi_env.py:58-81 | Read back, the block is two comments and the eight settings under their own keys, in order, for all values. |
| `PromoteConsumer.DirectoryHoldsFirst` | scripts/pack_promote_export_consumer.py:119-152 | Unless an event with another key has the same path, a key's file holds the content of the key's first handled event, also when a notify call ended the run. |
| `PromoteConsumer.DirectoryHoldsOnly` | scripts/pack_promote_export_consumer.py:119-152 | Every file was there before or belongs to a handled event. |
| `PromoteConsumer.NotifiedAtMostOnce` | scripts/pack_promote_export_consumer.py:119-152 | Over any runs on any logs, with any notify calls raising, no key is notified twice, and only after its file exists. |
| `PromoteConsumer.NotifiesExactly` | scripts/pack_promote_export_consumer.py:119-152 | With a notify URL a run calls, in order and once each, for exactly the handled valid lines whose path was neither in the directory nor that of an earlier line; without one it calls nobody. |
| `PromoteConsumer.RaisesExactly` | scripts/pack_promote_export_consumer.py:146-195 | A run ends in a raise exactly at the first such line whose call fails, and handles all lines otherwise. |
| `PromoteConsumer.ResultsExactly` | scripts/pack_promote_export_consumer.py:119-195 | Every line that is neither blank nor the raising one is answered, in order: written for exactly those lines, idempotent for the other valid ones, an error for the malformed. |
| `PromoteConsumer.ReconsumeChangesNothing` | scripts/pack_promote_export_consumer.py:176-195 | Consuming any prefix of what was handled again writes nothing, notifies nobody and raises nothing. |
| `PromoteConsumer.ConsumeSplits` | scripts/pack_promote_export_consumer.py:176-195 | Two logs in turn equal their concatenation, results included. |
| `PromoteConsumer.Consumer.ConsumeEvent` | scripts/pack_promote_export_consumer.py:119-152 | One event's effect on files and calls, its result, and exactly when it raises. |
| `PromoteConsumer.Consumer.ConsumeJsonl` | scripts/pack_promote_export_consumer.py:176-195 | The loop is the fold over the lines, ended by the first raise. |
| `PromoteConsumer.JoinedTellsApart` | scripts/pack_promote_export_consumer.py:82-88 | Without a bar in hash and time, the hashed text determines the key. |
| `PromoteConsumer.SharesTextExactly` | scripts/pack_promote_export_consumer.py:82-88 | Another key of the pack shares the hashed text if and only if the hash or the time holds a bar. |
| `DriftLock.Checker.Check` | scripts/replay/evidence_replay_consistency.py:444-545 | The exit code, from the sample and the replay outcomes alone: 2, 3, 1 and 0 in that order of precedence, with drift before replay errors; the new lock. |
| `DriftLock.Replay` | scripts/replay/evidence_replay_consistency.py:468-508 | The loop collects exactly the drifted manifests, and errors exactly when some replay failed. |
| `DriftLock.LockNamesExactly` | scripts/replay/evidence_replay_consistency.py:496-521 | The lock names, in order, exactly the manifests whose completed replay came to another decision or, on request, differed in timing or trace. |
| `DriftLock.LockStandsExactly` | scripts/replay/evidence_replay_consistency.py:512-545 | After any runs the lock stands if and only if some run wrote it and none since cleared it, and it names the last drift. |
| `DriftLock.LockStays` | scripts/replay/evidence_replay_consistency.py:512-545 | A lock survives every run that does not exit 0 with the clear flag. |
| `DriftLock.ShuffleKeepsVerdict` | scripts/replay/evidence_replay_consistency.py:463-466 | The order of the sample does not change the verdict. |
| `DriftLock.PostQuery` | scripts/replay/evidence_replay_consistency.py:113-170 | At most max_retries + 1 attempts, all but the last worth retrying; the answer is that of the last. |
| `Percentile.SortSorts` | scripts/bench_ingestion.py:47-60 | Sorting gives an ascending permutation. |
| `Percentile.PercentileExactly` | scripts/bench_ingestion.py:47-60 | Where the rank p (n - 1) / 100 falls between two neighbours of the sorted list, the value is their mean, each weighed by how close it is. |
| `Percentile.PercentilesAgree` | scripts/bench_ingestion.py:47-60 | For p in [0, 100] the two percentile functions agree on a list if and only if it is not empty; on the empty one they give NaN and zero. |
| `Percentile.PercentileMonotone` | scripts/bench_ingestion.py:47-60 | The percentile grows with p. |
| `Percentile.PercentileEnds` | scripts/bench_ingestion.py:47-60 | At 0 and 100 it is the minimum and the maximum. |
| `Percentile.PercentileIgnoresOrder` | scripts/bench_ingestion.py:47-60 | Only the values matter, not their order. |
| `Percentile.AtBetween` | scripts/benchmarks/latency_evaluate.py:37-45 | The interpolated value lies between its neighbours, and within the sample. |
| `Percentile.AtMonotone` | scripts/benchmarks/latency_evaluate.py:37-45 | The interpolation is monotone in the rank. |

## Left out

- HTTP, ClickHouse, Redis, Postgres and S3 clients: each call succeeds or fails, as a parameter or an action says.
- Protobuf decoding, the schema pin and Base64: what decoding makes of a payload is given with the payload.
- A decoded row's 32-byte digest and the stripped tenant id are types of the protocol; the settings enforce both.
- services/ingestor/replay_worker.py: it repeats the worker's path from the failed_evidence table.
- Logging, clocks, retry delays, jitter and `updated_at` values.
- Floating-point rounding and rounding to four digits in output: arithmetic is over reals.
- RulePrinter.EqualLinesEquivalent: over tokens; RuleText has the text of the line.
- RulePrinter.EqualLinesExactly: over tokens; RuleText.EqualTextsExactly has the text of the line.
- RuleText.TextIdentifiesExactly: one of the two rules is clean; for two rules of which neither is, no theorem says when their texts differ.
- YAML parsing, the walk over rule files, YAML snippets and the markdown page of the rule documentation.
- Non-string ids, names and operators in rules beyond how they print; numbers and lists keep their printed form.
- PromoteConsumer.DirectoryHoldsFirst: the path is a parameter; the digest and the cleaned pack id in it are not computed.
- PromoteConsumer.JoinedTellsApart: one direction only; the exact condition within a pack is SharesTextExactly.
- Dotenv.ReadWritten: the reader does not expand `$` references in values.
- Command-line parsing of the cold-tier script, which passes keywords that argparse does not accept.
- Parquet encoding, audit-anchor metadata and object names of the cold tier.
- ColdTierExport.Export: the table does not change under the run except by its own purge; ColdTierSafety has the live table.
- CalibrationScore.IsolatedExactly: a path parameter of the activation route is taken as any non-empty text without a slash.
- SDK selection, wizards and containers of the installer.
- The corrupt-file recovery of the profile store and the reliability export of the calibration service.
- The Rust engine, the frontend, the seeders, the smoke tests and the other services.
