# Verified models of the market-environment repository

Dafny models of the parts of the repository whose guarantees span loops, whole runs or trees, with
proofs of those guarantees. `dafny verify dfyconfig.toml` checks everything.

## What is modelled

| part | files | main results |
|---|---|---|
| Provider transport gateway | `TransportHost`, `TransportReplies`, `TransportRuns`, `TransportProbe`, `TransportExclusion`, `TransportProbeRuns`, `TransportGateway`, `TransportRefinement`, `TransportRequests` | slot spacing, budget and breaker over every interleaving; single flight, shared outcomes and provenance over every run; exactly when probes exclude each other and the probe flag is left up; what a request ends with, in terms of what it meets |
| Release comparison | `ReleaseTrees`, `ReleasePaths`, `ReleaseNormalisation`, `ReleaseComparison`, `ReleaseAcceptance`, `ReleaseFilling`, `ReleaseSchemas`, `ReleaseFilled`, `ReleaseStripping`, `ReleaseMatching`, `ReleaseDocuments`, `RefreshGate`, `RefreshDocuments` | what the two pruning passes decide; no normaliser hides an explicit difference; exactly which live documents, and which releases, are accepted; the refresh-gate checker is exact |
| Rule scheduler | `RuleScheduler` | the worklist equals recursive evaluation and fails exactly on cycles and missing members |
| Markdown chunks and excerpts | `Headings`, `Chunker`, `HeadingLines`, `Excerpts` | chunks partition the text; the index does not depend on the order of its sources; citations read back; when heading paths are true ancestor chains |
| Limits ecosystem | `LimitEvidence`, `LimitHistory`, `LimitEcosystem`, `LimitReport`, `LimitMeaning`, `LimitStanding` | nothing dated later influences a day; counts are conserved across ladder, strata and promotion; what each number of a report is of the stored facts |
| Pages and pinned client | `Paging`, `PinnedClient` | following next keys is complete exactly without ties; a client never returns a mixture of revisions, and survives one replacement |
| Scheduled collection caller | `HermesCaller` | at most one replay, bounded polling, honest reports |
| Diagnostic envelope | `ThsDiagnostics`, `DiagnosticEnvelope`, `DiagnosticTexts`, `DiagnosticFailures` | which raw texts survive the envelope, and which are refused or come back changed |

Objects that the program updates in place are classes: the gateway with its host, cache and in-flight
tables, a flight, and the caller's wire. Its loops are methods with invariants, proved against functions
that the lemmas are about. A locked region of the gateway is one step; `TransportGateway` proves each
method against the step functions of `TransportHost`, and `TransportRuns` lets the steps of any number of
calls interleave in any order, and a call's sleeps and waits be interrupted; `TransportRefinement` shows
that an attempt of the method is such a walk of its call. One host at a time is enough: a request identity
fixes its host, the methods change no other host's entry, and calls for different hosts share nothing but
the lock.

Times and ratios are real numbers; identifiers, sort keys and rule ids stand for strings by their order;
dates are day ordinals. Clocks, random draws, sleeps, engine answers, validators, YAML and JSON texts,
redaction patterns and digests are parameters. Digests are assumed to be free of collisions only where a
statement says so (`NoCollisions`); request and revision digests identify what they digest.

## Where a promise does not hold as stated

- Probe exclusion. While a breaker is open one request is to be let in at a time. From a lowered flag that
  holds up to the next recorded outcome exactly when no older request is inside and no clean-up is pending,
  and as long as the host is not reset and no cached or shared response is rejected (both lower the flag).
  Over successive probes it fails exactly through late clean-ups: a probe that has recorded its outcome
  lowers the flag once more (`_clear_probe` after `_record_retryable_failure`), and if the next probe has
  started by then a further request gets in beside it. `TwoProbesAreReachable` is such a run.
- The probe flag. It is raised before the caller's slot sleep, but the caller owns it only after that sleep.
  An interrupted sleep leaves it up: with no call left to lower it, the flag is up exactly in that case, and
  the host then refuses every request until it is reset or a cached response is rejected. `LeakIsReachable`
  is such a run.
- Heading paths. The stack is cut to one less than the new level, which is the chain of ancestors exactly
  when no heading that is no deeper than the one before it has a gap in the levels above it.
- Keyset pages. Rows with equal keys on either side of a page's end are lost; the pages are complete
  exactly when there is no such tie.
- Server defaults. A Deployment that desires no strategy stays accepted exactly when the live strategy is
  empty or nothing but `type: RollingUpdate`: the server's own default rolling update is refused.
- Diagnostics. A stored message, stage or entry text comes back exactly when the raw text had a visible
  character and was not cut, or was cut where redaction finds nothing more. A text of control characters is
  accepted, stored as no text, and its envelope no longer parses; a text cut right behind `token=` comes back
  redacted. This assumes that redaction finds nothing in its own result.

## Model

| member | source | states |
|---|---|---|
| `TransportHost.SlotsAreSpaced` | src/trading_system/data/provider_transport.py:1231-1259 | for every sequence of locked regions, with any clock values, each slot starts at least the minimum interval after every earlier internally gated one |
| `TransportHost.InternalSlotsSpan` | src/trading_system/data/provider_transport.py:1231-1259 | any n internally gated slots of a sequence, with whatever slots between them, span at least n-1 minimum intervals |
| `TransportHost.WindowWithinBudget` | src/trading_system/data/provider_transport.py:1197-1221 | in every sequence each budget window admits at most the request budget |
| `TransportHost.WindowsAreApart` | src/trading_system/data/provider_transport.py:1197-1206 | with a clock that does not run backwards window starts are at least a window apart, and every authorization falls in its window |
| `TransportHost.SpanWithinTwiceTheBudget` | src/trading_system/data/provider_transport.py:1197-1221 | any time span shorter than the window admits at most twice the budget |
| `TransportHost.BreakerFollowsHistory` | src/trading_system/data/provider_transport.py:1345-1367 | the breaker is open exactly when the retryable failures since the last success reach the threshold, until the cooldown after the newest of them |
| `TransportHost.ReservationLeaves` | src/trading_system/data/provider_transport.py:1231-1259 | exactly when a reservation is refused, when its slot begins, what it keeps free behind it, and whether it raises the probe flag |
| `TransportHost.ChargeLeaves` | src/trading_system/data/provider_transport.py:1197-1221 | an attempt is charged to the running window or opens one, and is admitted exactly within the budget |
| `TransportHost.OutcomeLeaves` | src/trading_system/data/provider_transport.py:1345-1367 | what a success, a retryable failure and any other outcome leave of failures, breaker and probe flag |
| `TransportReplies.TransientFailuresAreRetried` | src/trading_system/data/provider_transport.py:944-1043 | a reply is retried exactly when its failure is transient, retries are left and its Retry-After is honoured; the wait is that Retry-After, or else the doubled backoff and the draw; a failed request counts against the breaker exactly when transient |
| `TransportReplies.RepliesEndAsTheyFail` | src/trading_system/data/provider_transport.py:1055-1122 | a reply that is not retried ends the request with itself when usable and accepted, as a broken contract when usable and rejected, and otherwise as its status, screening or engine says, or as asking for too long a wait |
| `TransportRuns.OneOwnerPerIdentity` | src/trading_system/data/provider_transport.py:811-864 | in every run of interleaved calls at most one per identity is inside the policy, and the in-flight table holds exactly those |
| `TransportRuns.JoinedCallsShareTheOutcome` | src/trading_system/data/provider_transport.py:828-840 | every joined call ends with its owner's response or error, or with its own validator's rejection of the shared response |
| `TransportRuns.ReturnedResponsesAreSound` | src/trading_system/data/provider_transport.py:811-857 | whatever any call returns in any run was answered by an engine to the same identity, is below 400, is no challenge, and was unexpired if cached |
| `TransportRuns.SendsAreBounded` | src/trading_system/data/provider_transport.py:944-1052 | no call in any run sends more than one attempt plus the configured retries |
| `TransportProbe.FlagHasRaiser` | src/trading_system/data/provider_transport.py:1239-1259 | whenever the probe flag is up in a run, a call raised it since it was last lowered, and that call still sleeps, owns the probe, or was interrupted in its slot sleep |
| `TransportProbe.FlagIsUpExactlyWhenStranded` | src/trading_system/data/provider_transport.py:1044-1047 | however the calls of a run ended, with none left to lower it the probe flag is up exactly when the call that raised it was interrupted in its slot sleep, and nothing lowered it or reset the host since |
| `TransportProbe.ProbeFlagIsNeverLeaked` | src/trading_system/data/provider_transport.py:1044-1047 | without interrupted slot sleeps the probe flag is down when no call is left to lower it |
| `TransportProbeRuns.LeakIsReachable` | src/trading_system/data/provider_transport.py:1251-1259 | a run from an unused gateway, every call of which is done, leaves the breaker open and the flag up |
| `TransportExclusion.ShutHostAdmitsNobody` | src/trading_system/data/provider_transport.py:1239-1251 | from there no call gets in again, until a reset or the rejection of a cached or shared response |
| `TransportExclusion.ExclusionIsExact` | src/trading_system/data/provider_transport.py:1239-1259 | from an open breaker with its flag down, every continuation without a reset or the rejection of a cached or shared response has at most one request inside up to the next recorded outcome, exactly when no older request is inside and no clean-up is pending |
| `TransportProbe.AlwaysOrderly` | src/trading_system/data/provider_transport.py:944-962 | in every run no call claims the probe before its first slot, which the two statements on exclusion ask of their starting state |
| `TransportProbe.TwoInsideMeansLateCleanUp` | src/trading_system/data/provider_transport.py:1239-1259 | over any number of probes of an open breaker, with the same two exceptions and nobody inside at the start, two requests are inside at once only after a clean-up that ran while another request was inside |
| `TransportExclusion.LateCleanUpAdmitsAnother` | src/trading_system/data/provider_transport.py:1044-1047 | conversely, after each such late clean-up there is a continuation in which a second request comes in beside the first |
| `TransportProbeRuns.TwoProbesAreReachable` | src/trading_system/data/provider_transport.py:1239-1259 | a run from an unused gateway in which two requests are inside one half-open host at once |
| `TransportRuns.HostGuaranteesInEveryRun` | src/trading_system/data/provider_transport.py:793-1052 | slot spacing and the breaker's meaning hold of every run of interleaved calls without a reset |
| `TransportRuns.SendsAreCounted` | src/trading_system/data/provider_transport.py:944-1052 | what a call counts as its sends is the number of its requests to the engine in the run |
| `TransportRuns.SendsAreAdmissions` | src/trading_system/data/provider_transport.py:1197-1221 | in a run without a reset the requests sent to the engine are the admitted authorizations, at their times |
| `TransportRuns.SendsStayWithinBudget` | src/trading_system/data/provider_transport.py:1197-1221 | so in every such run each budget window has at most the budget of requests sent, windows are a window apart, and any shorter span has at most twice the budget |
| `TransportRuns.RunsAreHostRuns` | src/trading_system/data/provider_transport.py:1188-1367 | every run without a reset is, for the host, a sequence of its locked regions with non-decreasing authorization times |
| `TransportGateway.TransportPolicyGateway.WaitForSlot` | src/trading_system/data/provider_transport.py:1223-1259 | the whole new host table after a reservation, whether it was granted, and the delay to its start |
| `TransportGateway.TransportPolicyGateway.AuthorizeAttempt` | src/trading_system/data/provider_transport.py:1188-1221 | the whole new host table after counting an attempt, and whether it was admitted |
| `TransportGateway.TransportPolicyGateway.Success` | src/trading_system/data/provider_transport.py:1345-1351 | closes the breaker and lowers the probe flag, and changes no other host |
| `TransportGateway.TransportPolicyGateway.RetryableFailure` | src/trading_system/data/provider_transport.py:1353-1359 | counts a failure, lowers the probe flag and opens the breaker at the threshold |
| `TransportGateway.TransportPolicyGateway.LowerProbe` | src/trading_system/data/provider_transport.py:1361-1367 | lowers the probe flag and changes nothing else |
| `TransportGateway.TransportPolicyGateway.OneAttempt` | src/trading_system/data/provider_transport.py:944-1043 | one pass of the retry loop with other callers interleaved: its end, probe ownership and the host's exact state |
| `TransportGateway.TransportPolicyGateway.RequestWithPolicy` | src/trading_system/data/provider_transport.py:929-1053 | the retry loop and its clean-up, also when a sleep or the engine is interrupted: end, sends, sleep and the host's exact state, as the function the loop lemmas are about |
| `TransportRefinement.AttemptIsAWalk` | src/trading_system/data/provider_transport.py:944-1043 | one pass of the loop, with whatever regions of other calls between its steps, is a walk of its call through the steps of a run, with the same effect on the host, the same claim on the probe and the same end |
| `TransportGateway.LoopOnIsSound` | src/trading_system/data/provider_transport.py:944-1053 | a request sends at most one attempt plus its retries, retries after every send but the last, always ends classified when there is an attempt, and leaves the flag down if it owned the probe |
| `TransportGateway.BackoffOfLoop` | src/trading_system/data/provider_transport.py:1261-1291 | a request's total backoff is at most retries times the largest Retry-After, plus backoff times 2^retries - 1, plus retries times the upper jitter |
| `TransportGateway.ReturnedIsEarned` | src/trading_system/data/provider_transport.py:1012-1043 | a response is returned only for a send that it answered, usable and accepted |
| `TransportRequests.RequestEndsWithLastAttempt` | src/trading_system/data/provider_transport.py:944-1053 | stated on the world alone: a request ends with the first attempt that is not sent and retried, as the breaker, an interruption, the budget or that attempt's reply decides, and sends one more than it retried |
| `TransportRequests.FirstLastingReplyDecides` | src/trading_system/data/provider_transport.py:944-1053 | when every attempt is let through and none interrupted, the first reply that is not transient, or the last there is a retry for, decides: its response when usable and accepted, and otherwise what it failed for |
| `TransportRefinement.RequestIsAWalk` | src/trading_system/data/provider_transport.py:842-864 | a whole owned request of the object is a walk of its call through the steps of a run, with the same result, sends, host state, cache and in-flight table |
| `TransportRefinement.EntersAsItFinds` | src/trading_system/data/provider_transport.py:811-827 | a call of a run is served, rejected, joined or made owner exactly as the cache and the in-flight table say |
| `TransportRefinement.WakesAsItsOwnerEnded` | src/trading_system/data/provider_transport.py:828-840 | a joined call of a run ends as its owner ended, or with its own rejection of the response, which lowers the flag |
| `TransportGateway.TransportPolicyGateway.BeginRequest` | src/trading_system/data/provider_transport.py:811-827 | the first locked region: a live cache hit is served when the caller's validator accepts it and rejected otherwise; without one the call joins exactly when its identity is in flight and owns it otherwise; what it leaves in cache and table |
| `TransportGateway.TransportPolicyGateway.RunOwned` | src/trading_system/data/provider_transport.py:842-864 | the owner ends exactly as its retry loop ended, files a usable response under its identity and host with its expiry, hands its result to whoever joined and leaves the in-flight table |
| `TransportGateway.TransportPolicyGateway.FinishJoined` | src/trading_system/data/provider_transport.py:828-840 | a joiner gets the owner's error, or its response if the joiner's validator takes it |
| `TransportGateway.TransportPolicyGateway.ResetHost` | src/trading_system/data/provider_transport.py:913-922 | forgets the host's state and exactly the responses cached for it |
| `ReleaseTrees.PruningDecides` | scripts/validate-scheduling-packet.py:1601-1671 | the two pruning passes leave equal trees exactly when the trees relate: same value, lists pairwise, mappings on shared keys with only null, {} or [] elsewhere |
| `ReleaseTrees.RelatedReflexive` | scripts/validate-scheduling-packet.py:1601-1671 | every tree relates to itself |
| `ReleaseTrees.RelatedSymmetric` | scripts/validate-scheduling-packet.py:1601-1671 | the relation is symmetric |
| `ReleaseTrees.PassOrderIsIrrelevant` | scripts/validate-scheduling-packet.py:1669-1671 | which of the two trees is pruned first does not matter |
| `ReleaseTrees.RelatedIsNotTransitive` | scripts/validate-scheduling-packet.py:1601-1611 | the relation is no equivalence: an omitted key goes with null and with [], which do not go together |
| `ReleaseTrees.PruneOmittedEmpty` | scripts/validate-scheduling-packet.py:1601-1611 | the loop that pops keys and descends lists leaves exactly the pruned tree |
| `ReleasePaths.RelatedTreesAgree` | scripts/validate-scheduling-packet.py:1669-1671 | trees that pruning finds equal have the same non-empty scalar at every path |
| `ReleaseNormalisation.DropDefaultsTrims` | scripts/validate-scheduling-packet.py:1319-1326 | dropping defaults takes away only values equal to their defaults, and adds nothing |
| `ReleaseNormalisation.OnMatchedTrims` | scripts/validate-scheduling-packet.py:1329-1334 | editing list items against the desired item of their name takes away only what editing one item does |
| `ReleaseMatching.ItemIsMatched` | scripts/validate-scheduling-packet.py:1329-1333 | a live item is matched with the one desired item of its name, and with none when no or several items have it |
| `ReleaseMatching.PullPolicyFollowsTag` | scripts/validate-scheduling-packet.py:1356-1362 | the default is Always exactly when what follows the image's last slash has no colon or ends in :latest, and IfNotPresent otherwise |
| `ReleaseMatching.NoImageNoPolicy` | scripts/validate-scheduling-packet.py:1356-1358 | there is no default exactly without an image that is a non-empty text |
| `ReleaseNormalisation.ContainerTrims` | scripts/validate-scheduling-packet.py:1336-1393 | a container's normaliser takes away only its named defaults |
| `ReleaseNormalisation.PodTrims` | scripts/validate-scheduling-packet.py:1395-1442 | a pod's normaliser takes away only its named defaults and allocated values |
| `ReleaseNormalisation.TemplateTrims` | scripts/validate-scheduling-packet.py:1444-1458 | a pod template's normaliser likewise |
| `ReleaseComparison.ServiceTrims` | scripts/validate-scheduling-packet.py:1460-1488 | a Service's normaliser likewise |
| `ReleaseComparison.DeploymentTrims` | scripts/validate-scheduling-packet.py:1490-1522 | a Deployment's normaliser likewise |
| `ReleaseComparison.StatefulTrims` | scripts/validate-scheduling-packet.py:1524-1565 | a StatefulSet's normaliser likewise |
| `ReleaseComparison.ClaimMetadataTrims` | scripts/validate-scheduling-packet.py:1567-1599 | a claim's metadata normaliser takes away only the protection finalizer and volume annotations |
| `ReleaseComparison.NormaliseTrims` | scripts/validate-scheduling-packet.py:1660-1668 | whatever the kind, normalising the live document takes away only that kind's named values and adds nothing |
| `ReleaseComparison.AnnotationsTrim` | scripts/validate-scheduling-packet.py:1636-1658 | stripping annotations takes away Helm's, with the values Helm gives them, and on the live side the server's own |
| `ReleaseAcceptance.PairAcceptedIffRelated` | scripts/validate-scheduling-packet.py:1614-1671 | a pair is accepted exactly when both sides can be stripped and the normalised live document relates to the desired one |
| `ReleaseStripping.StripsExactly` | scripts/validate-scheduling-packet.py:1620-1658 | a document can be stripped exactly when it has metadata and its Helm and revision annotations are right; it then loses its status, the server's metadata and those annotations, gets the namespace it lacks, and keeps everything else |
| `ReleaseStripping.AnnotationsAreStripped` | scripts/validate-scheduling-packet.py:1636-1658 | which annotations go, and exactly which values make the document be refused |
| `ReleaseAcceptance.AcceptedPairHidesNothing` | scripts/validate-scheduling-packet.py:1614-1671 | in an accepted pair every non-empty desired scalar is live with the same value, and conversely, but for the named exemptions |
| `ReleaseFilling.FittingIsExact` | scripts/validate-scheduling-packet.py:1601-1671 | normalising by a schema of defaults, allocated values and nested objects leaves a tree related to the desired one exactly when every key of both is accounted for |
| `ReleaseFilled.DocumentEdits` | scripts/validate-scheduling-packet.py:1319-1599 | each kind's normaliser, step by step as the script runs it, is that normalising by the kind's schema |
| `ReleaseFilled.AcceptedIffFits` | scripts/validate-scheduling-packet.py:1614-1671 | a pair of any kind is accepted exactly when both sides can be stripped and every live key is desired with a fitting value, filled in by the server, or an omitted empty |
| `ReleaseFilled.AdditionsAreAccepted` | scripts/validate-scheduling-packet.py:1614-1671 | a live document in which the server only added listed defaults and allocated values is accepted |
| `ReleaseFilled.UndesiredStrategyMustBeBare` | scripts/validate-scheduling-packet.py:1505-1515 | adding a live strategy to an accepted Deployment that desires none leaves it accepted exactly when the strategy is empty or its type alone, RollingUpdate |
| `ReleaseAcceptance.FilledStrategyIsRefused` | scripts/validate-scheduling-packet.py:1505-1515 | whatever else a pair holds, it is refused when the desired Deployment has no strategy and the live one shows a rolling update |
| `ReleaseFilled.DefaultStrategyIsRefused` | scripts/validate-scheduling-packet.py:1505-1515 | one Deployment that is accepted as desired and refused once the live one shows the default rolling update |
| `ReleaseAcceptance.AcceptedReleaseHidesNothing` | scripts/validate-scheduling-packet.py:1674-1689 | an accepted release has the same keys on both sides and hides nothing in any pair |
| `ReleaseDocuments.DocumentIsTracked` | scripts/validate-scheduling-packet.py:1284-1316 | from the document's own fields: it is passed over exactly when its kind is not compared, refused exactly when label, namespace, name or API version are not in order, and otherwise stands under API version, kind, namespace and name |
| `ReleaseDocuments.ComparedKinds` | scripts/validate-scheduling-packet.py:15-18 | the compared kinds are Service and Deployment, at these API versions |
| `ReleaseDocuments.IndexIffAllInOrder` | scripts/validate-scheduling-packet.py:1284-1316 | there is an index exactly when every document of a compared kind is in order and no two have one kind and name |
| `ReleaseDocuments.ReleaseAcceptedIffDocumentsMeet` | scripts/validate-scheduling-packet.py:1674-1689 | a release is accepted exactly when both sides are in order, every document of a compared kind has one of its kind and name on the other side, and all such pairs are accepted |
| `ReleaseDocuments.LiveDocumentHasMatch` | scripts/validate-scheduling-packet.py:1674-1689 | in an accepted release every live Service and Deployment is in order and agrees with a desired one of its kind and name on every explicit value |
| `ReleaseDocuments.DesiredDocumentHasMatch` | scripts/validate-scheduling-packet.py:1674-1689 | and every desired one with a live one |
| `ReleaseAcceptance.TrackedReleaseResources` | scripts/validate-scheduling-packet.py:1284-1316 | the indexing loop stops at the first invalid or repeated document and otherwise gives the index |
| `ReleaseAcceptance.CompareLiveDesired` | scripts/validate-scheduling-packet.py:1674-1689 | the loop over keys accepts exactly when the keys are equal and every pair is accepted |
| `RefreshGate.RefreshGateIsExact` | scripts/validate-scheduling-packet.py:601-647 | between valid packets the checker accepts exactly when the hooks are equal and the desired resources are the current ones with the one gate literal replaced |
| `RefreshGate.GateChangeAccepted` | scripts/validate-scheduling-packet.py:601-647 | replacing the gate literal in a Deployment is always accepted |
| `RefreshGate.AcceptedGateChange` | scripts/validate-scheduling-packet.py:601-647 | an accepted Deployment is the current one with the gate at its own literal |
| `RefreshDocuments.PacketIsParted` | scripts/validate-scheduling-packet.py:144-159 | a packet is parted into the documents with a hook annotation and the others, each as often as it was there |
| `RefreshDocuments.KeyIsOfFields` | scripts/validate-scheduling-packet.py:122-131 | a document's key holds its API version, kind, namespace and name, and there is none without a name |
| `RefreshDocuments.IndexIffKeysAreDistinct` | scripts/validate-scheduling-packet.py:134-141 | there is an index exactly when every document has a key and no two share one; it then holds exactly the documents, each under its key |
| `RefreshDocuments.GateEditIsLocal` | scripts/validate-scheduling-packet.py:601-647 | replacing the gate literal changes the value of the gate's items in the dashboard container's environment and nothing else |
| `RuleScheduler.EvaluateRuleSet` | src/trading_system/evaluation/engine.py:77-98 | the worklist succeeds exactly when no member is missing and the member relation has no cycle, and then every trace is the recursive evaluation |
| `RuleScheduler.Round` | src/trading_system/evaluation/engine.py:85-93 | one round keeps the traces consistent and in dependency order, and makes no progress exactly when no pending rule is ready |
| `RuleScheduler.ConsistentIsRecursive` | src/trading_system/evaluation/engine.py:91 | traces that satisfy every rule are the recursive evaluation, under any ranking of the rules |
| `RuleScheduler.NoProgressMeansUnresolvable` | src/trading_system/evaluation/engine.py:94-96 | a round without progress means a missing member or a cycle |
| `RuleScheduler.RankedHasNoCycle` | src/trading_system/evaluation/engine.py:84-96 | a member relation that can be ranked has neither a cycle nor a missing member |
| `RuleScheduler.ListingOrderIsIrrelevant` | src/trading_system/evaluation/engine.py:80 | with distinct ids the order in which rules are listed does not matter |
| `Chunker.FrontMatterIsExact` | src/trading_knowledge/parsers.py:65-74 | the whole file is body exactly when it does not open with a delimiter; otherwise the body starts after the first closing delimiter when a mapping lies between, and the refusals are exactly for no closing delimiter and for anything else between |
| `HeadingLines.HashesMakeHeading` | src/trading_knowledge/parsers.py:118-122 | one to six hashes, white space and any rest make a heading of as many hashes' level, titled with the cleaned rest without the white space around it |
| `HeadingLines.HeadingIsHashes` | src/trading_knowledge/parsers.py:118-122 | every heading is such a line |
| `HeadingLines.PathsAreOfLinesIffNoGap` | src/trading_knowledge/parsers.py:118-131 | every line's path is the titles of the heading lines it stands under, outermost first, exactly when no heading line leaves a gap: one more hash is one level deeper |
| `Chunker.ParseBody` | src/trading_knowledge/parsers.py:89-147 | the scanner's chunks are a segmentation: each begins at a text line, ends at the first place it has to, holds exactly the lines between, under the path of its first line |
| `Chunker.ParseMarkdown` | src/trading_knowledge/parsers.py:83-147 | the chunks of a file, or exactly the front matter's refusal |
| `Chunker.ChunksAreUnique` | src/trading_knowledge/parsers.py:90-147 | a body has only one segmentation, so what a chunk is determines every chunk |
| `Chunker.RangesIncrease` | src/trading_knowledge/parsers.py:90-147 | chunk ranges are strictly increasing and disjoint |
| `Chunker.EachTextLineIsInOneChunk` | src/trading_knowledge/parsers.py:90-147 | every non-blank body line is in exactly one chunk |
| `Chunker.PathHoldsThroughout` | src/trading_knowledge/parsers.py:118-131 | a chunk's path is the one in force at each of its lines |
| `Chunker.OnlyTheLastTextLineFills` | src/trading_knowledge/parsers.py:142-145 | no chunk reached the size limit before its last text line |
| `Chunker.PathAtHeadingIsAncestors` | src/trading_knowledge/parsers.py:120-127 | the paths of all body lines are true ancestor chains exactly when no heading leaves a gap in the levels above it |
| `Headings.PathIsAncestorsIffNoGap` | src/trading_knowledge/parsers.py:123-127 | at every heading the stack is the chain of nearest shallower headings exactly when no heading that is no deeper than the one before it has a gap above it |
| `Headings.PathIsAncestorsWhenLevelsNeverSkip` | src/trading_knowledge/parsers.py:123-127 | when levels never skip every path is the true ancestor chain |
| `Headings.SkippedLevelMisleads` | src/trading_knowledge/parsers.py:123-127 | with a skipped level a sibling is recorded as a child |
| `Excerpts.BuildIndex` | src/trading_knowledge/index.py:128-227 | the index holds exactly the rows of all sources' chunks, in their order, with distinct ids; without digest collisions it is built exactly when there are sources, every front matter is accepted and some body has text |
| `Excerpts.SourceOrderIsIrrelevant` | src/trading_knowledge/index.py:151 | the rows of an index do not depend on the order in which its sources were found |
| `Excerpts.RowsAreDistinct` | src/trading_knowledge/parsers.py:203-214 | without collisions no two chunks of any sources share a citation id |
| `Excerpts.RowsTellWhatTheyCite` | src/trading_knowledge/parsers.py:150-192 | every row cites the lines of a chunk of its source, with that chunk's text and heading path |
| `Excerpts.RowsStandInOrder` | src/trading_knowledge/index.py:151 | rows stand by layer, within it by reference, and within a document in the order of the text |
| `Excerpts.UnknownCitationsMatchNothing` | src/trading_knowledge/service.py:105-185 | a citation that no row has matches nothing |
| `Excerpts.CitationsReadBack` | src/trading_knowledge/service.py:105-185 | every citation reads back its own content from an unchanged file, is stale for any other bytes, and is never invalid |
| `LimitEvidence.ResolvesExactly` | src/market_environment/trading_sessions.py:84-179 | a day resolves exactly when it is a weekday, it and its recorded previous session are evidenced, and that one is earlier |
| `LimitEvidence.PromotionIsSound` | src/market_environment/limit_promotion.py:101-303 | a promotion is counted exactly with two evidenced sessions and complete bound datasets; promoted never exceed eligible; a ratio is in [0,1] and only of a non-empty sample |
| `LimitEvidence.PromotionIsShareOfMembers` | src/market_environment/limit_promotion.py:101-303 | the promotion in full, from the store: the refusal in the source's order, or the rounded share of the earlier session's closed members that are closed members on the day; degraded exactly when the day's quality or either day's evidence is |
| `LimitEvidence.RefusalsAreNamed` | src/market_environment/trading_sessions.py:84-179 | what a day is refused for: a weekend first, then its own session, then the one before |
| `LimitEvidence.RoundsToNearest` | src/market_environment/limit_promotion.py:261-264 | rounding goes to the nearest number of four decimals, and to the even one between two |
| `LimitEvidence.PromotionLooksBack` | src/market_environment/limit_promotion.py:101-303 | nothing dated after the day matters to its promotion |
| `LimitHistory.HistoryChain` | src/market_environment/limit_ecosystem.py:192-215 | the walk gives the chain of recorded previous sessions with snapshots, at most the window long |
| `LimitHistory.ChainLinks` | src/market_environment/limit_ecosystem.py:192-215 | chain dates strictly decrease from the day; each link is the recorded previous of an evidenced session; each day has a snapshot |
| `LimitHistory.ChainIsMaximal` | src/market_environment/limit_ecosystem.py:192-215 | a chain shorter than the window ends only where the record does |
| `LimitHistory.PercentileGrowsWithValue` | src/market_environment/limit_ecosystem.py:151-189 | percentiles are in [0,1] and grow with the value, and so do the band scores, or fall for inverse metrics |
| `LimitHistory.GreatestIsAtTheTop` | src/market_environment/limit_ecosystem.py:151-158 | of two or more observations the greatest stands at 1 |
| `LimitHistory.OneAloneIsMidway` | src/market_environment/limit_ecosystem.py:151-158 | one observation alone stands at one half; there is no percentile exactly without observations or without a value |
| `LimitHistory.BuildHistory` | src/market_environment/limit_ecosystem.py:218-322 | the loops over points and metrics give the history that its function says |
| `LimitHistory.PercentilesAreComplete` | src/market_environment/limit_ecosystem.py:278-313 | with at least 60 usable days a metric has a percentile exactly when the day has the metric; with fewer none has |
| `LimitHistory.UsableDayFollowsUsableEvidence` | src/market_environment/limit_ecosystem.py:218-276 | a usable day and the session before it are evidenced with complete bound datasets, its promotion is of a non-empty sample, and it has every metric |
| `LimitHistory.HistoryLooksBack` | src/market_environment/limit_ecosystem.py:218-322 | nothing dated after the day matters to its history |
| `LimitStanding.DayIsObserved` | src/market_environment/limit_ecosystem.py:218-276 | a day is a usable observation exactly when its snapshot is in order, its details complete and bound, its promotion good and its other metrics there; its values are its metrics with the promotion ratio rebuilt |
| `LimitStanding.HistoryRanksTheDay` | src/market_environment/limit_ecosystem.py:278-313 | a metric's percentile is its rounded rank: the usable days no greater, less one, over the usable days, less one; the history's count and status follow from its usable days |
| `LimitEcosystem.FactDimensions` | src/market_environment/limit_ecosystem.py:325-493 | the loops over tiers and labels give the ladder and strata that their functions say |
| `LimitEcosystem.LadderConserves` | src/market_environment/limit_ecosystem.py:331-482 | with complete streak facts the four tiers, and likewise high, middle and low, make up all limit-ups; without, none has a count |
| `LimitEcosystem.StrataConserve` | src/market_environment/limit_ecosystem.py:372-416 | the counts of a dimension's strata never exceed the limit-ups, and make them all up exactly when each has a listed label |
| `LimitMeaning.LadderCountsStreaks` | src/market_environment/limit_ecosystem.py:331-371 | the ladder counts the limit-ups in their first, second, third and a later session, or nothing when the details or a streak are not complete |
| `LimitMeaning.StrataCountValues` | src/market_environment/limit_ecosystem.py:372-416 | each stratum of exchange, regime and board counts the limit-ups with its value, when every limit-up has one |
| `LimitMeaning.RiskTiersCount` | src/market_environment/limit_ecosystem.py:418-482 | the risk tiers count flagged and newly listed limit-ups, and those in a high, middle and low session |
| `LimitStanding.PoolsAreCounted` | src/market_environment/limit_ecosystem.py:87-148 | each pool has the number of its valid members as its total, and the status that follows from what is recorded of it |
| `LimitStanding.QualitiesFollowPools` | src/market_environment/limit_ecosystem.py:87-148 | membership is degraded exactly by a degraded or failed pool, streaks as good as membership when complete |
| `LimitReport.PromotedTotalIsPromoted` | src/market_environment/limit_ecosystem.py:557-609 | the total of promoted detail rows is there exactly when the promotion is counted, and is the number promoted, given the fact table's key |
| `LimitReport.ConcentrationIsBounded` | src/market_environment/limit_ecosystem.py:762-784 | board concentration is at most 1 and at least an equal share among the boards |
| `LimitReport.ComparisonsNeedTwoCompleteDays` | src/market_environment/limit_ecosystem.py:699-761 | risk rows that compare with the session before have a value only for two evidenced days with complete details; a consecutive fall means both days had limit-downs |
| `LimitReport.RatiosAreShares` | src/market_environment/limit_ecosystem.py:737-798 | failure repair and next-day feedback are shares in [0,1] |
| `LimitReport.ScoredWhenObserved` | src/market_environment/limit_ecosystem.py:642-672 | a rule is scored, with a band, exactly when the day has its metric and the history at least 60 usable days |
| `LimitStanding.RulesScoreRanks` | src/market_environment/limit_ecosystem.py:642-672 | each metric has one rule with its value, scored by the number of fifths its percentile passes; limit-downs and failed limit-ups the other way round |
| `LimitStanding.ConfidenceFollowsHistory` | src/market_environment/limit_ecosystem.py:802-803 | coverage is the share of 60 usable days; confidence follows from the history and the promotion |
| `LimitStanding.FallsCompareTwoDays` | src/market_environment/limit_ecosystem.py:700-735 | the row of consecutive falls is there exactly when both days' details and counts are, and says whether both have limit-downs |
| `LimitStanding.LaddersCompareTwoDays` | src/market_environment/limit_ecosystem.py:756-761 | the ladder row is the change of the longest streak, exactly when both days' are complete and known |
| `LimitStanding.RepairIsShareOfFailed` | src/market_environment/limit_ecosystem.py:737-755 | the repair row is the rounded share of the earlier day's failed limit-ups that closed at their limit on the day |
| `LimitStanding.ConcentrationIsLargestBoard` | src/market_environment/limit_ecosystem.py:762-783 | the concentration is the rounded share of a board that no other exceeds, exactly when every limit-up has a board |
| `LimitStanding.FeedbackIsPromotion` | src/market_environment/limit_ecosystem.py:785-798 | the feedback row is the promotion ratio with its status |
| `LimitReport.NoLookAhead` | src/market_environment/limit_ecosystem.py:612-804 | two stores that hold the same of everything dated at or before a day report the same for it |
| `Paging.SortCommutes` | src/market_environment/infrastructure/v2_market_data_compat.py:112-132 | filtering by the continuation key and then sorting is sorting and then filtering |
| `Paging.SortIsStable` | src/market_environment/infrastructure/v2_market_data_compat.py:119 | rows of one key keep the order they were in |
| `Paging.PageIsCutOffLeft` | src/market_environment/infrastructure/v2_market_data_compat.py:112-132 | a page is the first rows of what is left after its key, and its next key leaves fewer rows after a greater key |
| `Paging.WalkIsCompleteIffNoTie` | src/market_environment/infrastructure/v2_market_data_compat.py:112-132 | following next keys gives all sorted rows, each once, exactly when no two rows on either side of a page's end have one key |
| `Paging.PagesNeeded` | src/market_environment/infrastructure/v2_market_data_compat.py:112-132 | it then takes the fewest pages that hold the rows, and one when there are none |
| `Paging.DistinctKeysHaveNoTie` | src/market_environment/infrastructure/v2_market_data_compat.py:112-132 | distinct keys are enough |
| `Paging.TieLosesARow` | src/market_environment/infrastructure/v2_market_data_compat.py:112-132 | a tie on a page's end loses a row |
| `PinnedClient.FetchAllPages` | apps/market-environment-dashboard/src/market-v2-api.ts:217-272 | against a store that changes between requests: undisturbed up to its last request, a fetch has then collected the whole pinned revision in its pages, or fails there exactly as that request explains |
| `PinnedClient.FetchWithRestart` | apps/market-environment-dashboard/src/market-v2-api.ts:274-305 | a conflict is always followed by the overview; when that can be read the fetch starts over, pinned to its revision, and reports it, otherwise the conflict is thrown; without a conflict the first fetch is the result |
| `PinnedClient.FetchIsDetermined` | apps/market-environment-dashboard/src/market-v2-api.ts:217-272 | what is met decides what a fetch comes to, and after how many requests |
| `PinnedClient.UndisturbedIsCollected` | apps/market-environment-dashboard/src/market-v2-api.ts:217-272 | a revision served until all its pages are read is collected |
| `PinnedClient.NeverAMixture` | apps/market-environment-dashboard/src/market-v2-api.ts:274-305 | what is returned is the whole collection of the pinned or the overview's revision, never rows of two, and says truly whether it was started over |
| `PinnedClient.OneReplacementIsSurvived` | apps/market-environment-dashboard/src/market-v2-api.ts:274-305 | when the store is replaced once, at any moment, the client returns a whole collection: of the old revision exactly when all its pages were read before, else of the new one |
| `PinnedClient.ReplacementConflicts` | apps/market-environment-dashboard/src/market-v2-api.ts:217-272 | a store replaced before all pages are read makes the next request a conflict |
| `PinnedClient.PagesAreOfTheirRevision` | src/market_environment/infrastructure/v2_market_data_compat.py:112-132 | a page is answered exactly when its cursor and pin name the current revision; otherwise the conflict names that revision |
| `PinnedClient.CollectedIsEveryRow` | apps/market-environment-dashboard/src/market-v2-api.ts:250-271 | what is collected is every row by key exactly when no tie falls on a page's end and no two rows share an identity |
| `PinnedClient.FreshIsAllIffDistinct` | apps/market-environment-dashboard/src/market-v2-api.ts:253-258 | dropping repeated identities drops nothing exactly when identities are distinct and unseen |
| `HermesCaller.ReplaysAreTold` | scripts/hermes_market_collection.py:105-175 | a run that falls after the catch-up deadline sends nothing; a reported result says whether the POST was replayed |
| `HermesCaller.PollRun` | scripts/hermes_market_collection.py:247-323 | polling reports the ended run, an error when the last poll failed, or still running; within the budget's intervals; on time when sleeps are exact and timeouts kept |
| `HermesCaller.HandlePostResponse` | scripts/hermes_market_collection.py:178-244 | polls exactly an accepted, unfinished run with a status address, and otherwise reports the response as it is |
| `HermesCaller.Run` | scripts/hermes_market_collection.py:105-175 | every run follows the protocol: nothing after the deadline, one POST, a replay only when that was lost, polls after |
| `HermesCaller.PostsAreBounded` | scripts/hermes_market_collection.py:105-323 | at most two POSTs with the day's key, the second exactly when the first was lost; no more GETs than intervals begin within the budget |
| `HermesCaller.ReportedRunsAreReal` | scripts/hermes_market_collection.py:192-323 | a run is reported exactly when the backend answered 200 with it, to the POST or as the last poll with an end status |
| `HermesCaller.PollingEndsInTime` | scripts/hermes_market_collection.py:271-302 | with exact sleeps and timeouts kept polling ends by its deadline plus one GET's timeout |
| `HermesCaller.PollsAreSpaced` | scripts/hermes_market_collection.py:271-302 | each poll is then sent an interval after the answer before it, or at the deadline if that is sooner |
| `HermesCaller.RunsUntilFour` | scripts/hermes_market_collection.py:105-136 | up to 16:00 Shanghai time a run with a sound budget starts with the POST of its Shanghai day; later it sends nothing and is skipped |
| `HermesCaller.ReportsFollowAnswers` | scripts/hermes_market_collection.py:178-323 | from the answers' own fields: exactly when a run is reported unreachable, skipped, rejected, ended, still running or an error, and when a retry makes sense; every poll goes to the accepted run's address |
| `HermesCaller.ReportsCarryNewest` | scripts/hermes_market_collection.py:247-323 | the report carries the newest run that was answered |
| `ThsDiagnostics.SafeIdIsStable` | src/market_environment/domain/ths_diagnostics.py:53-59 | an accepted identifier is accepted again as it is |
| `ThsDiagnostics.CodeSampleIsStable` | src/market_environment/domain/ths_diagnostics.py:81-88 | a code sample is a fixed point of sampling and within the limit |
| `DiagnosticEnvelope.TextIsBounded` | src/market_environment/domain/ths_diagnostics.py:41-50 | a text of white space is refused; any other is redacted in normal form and kept when it fits, and otherwise cut behind the last visible character before its limit, with an ellipsis |
| `DiagnosticEnvelope.SampleKeepsLeast` | src/market_environment/domain/ths_diagnostics.py:81-88 | a sample holds the codes of its values in increasing order: all of them, or the 20 least |
| `DiagnosticEnvelope.DiagnosticIsBuilt` | src/market_environment/domain/ths_diagnostics.py:156-254 | raw values make a diagnostic exactly when texts, identifiers, counts and samples are all sound; each is kept, bounded, in its own place, with at most eight entries |
| `DiagnosticEnvelope.EnvelopeHoldsTexts` | src/market_environment/domain/ths_diagnostics.py:256-285 | the envelope holds every text of the diagnostic under its own name, and leaves out what it does not have |
| `DiagnosticEnvelope.EnvelopeHoldsCounts` | src/market_environment/domain/ths_diagnostics.py:256-285 | the envelope holds every count under its own name likewise |
| `DiagnosticEnvelope.EnvelopeHoldsLists` | src/market_environment/domain/ths_diagnostics.py:256-285 | the envelope holds samples and entries likewise, and nothing else |
| `DiagnosticEnvelope.ParsedIsWellFormed` | src/market_environment/application/ths_diagnostics.py:103-185 | only a mapping whose values have their types, and whose size is within the limit, is parsed |
| `ThsDiagnostics.RoundTripIffTextsAreFixed` | src/market_environment/application/ths_diagnostics.py:48-185 | a diagnostic that encodes parses back to itself exactly when bounding its stored texts again changes none; all else always comes back |
| `DiagnosticTexts.StoredTextIsFixedIffRawSurvives` | src/market_environment/domain/ths_diagnostics.py:41-50 | bounding a stored text again keeps it exactly when the raw text has a visible character and was not cut, or redaction finds nothing in the cut text; it refuses it exactly when the raw text has no visible character |
| `DiagnosticTexts.RoundTripIffRawTextsSurvive` | src/market_environment/application/ths_diagnostics.py:48-185 | a diagnostic built from raw values comes back exactly when its raw message, stage and kept entries' texts survive in that sense |
| `DiagnosticTexts.ParsesIffNoTextWasEmptied` | src/market_environment/application/ths_diagnostics.py:103-185 | an encoded diagnostic parses at all exactly when each of those raw texts has a visible character |
| `DiagnosticFailures.PlainIsRegular` | src/market_environment/domain/ths_diagnostics.py:41-50 | redacting token assignments alone meets what is assumed of redaction: it keeps texts normalised, is done after one pass, and marks where it began |
| `DiagnosticFailures.ControlMessageIsRefused` | src/market_environment/application/ths_diagnostics.py:48-185 | a message of one control character is accepted and encoded, and its envelope does not parse |
| `DiagnosticFailures.CutStageComesBackChanged` | src/market_environment/application/ths_diagnostics.py:48-185 | a stage cut right behind a token's equals sign is accepted and encoded, and parses to another diagnostic |

## Left out

- Gateway diagnostics (`last_*` fields, timings, evidence payloads) and the texts of failures: they do not
  influence any decision.
- An external gate calls the engine exactly once in the model.
- Threads below the lock, real HTTP, sockets, databases and files.
- Comparison trees are values: the normalisers' updates in place, aliasing through YAML anchors and keys
  that are not strings are not modelled.
- Release packets: image, secret, hook and namespace reviews of single packets; only the comparison of two
  packets and of live with desired is.
- `evaluate_rule_set` after the worklist: score, coverage, confidence, state and hashes, which summarise
  the traces; the rule evaluators are any function of a rule and its members' traces.
- Excerpts.BuildIndex: indexes Markdown sources only; the chunks of YAML sources, whose ranges run from one
  entry's line to the next, and the rule catalogue read before them are not modelled.
- Chunk search texts, rule ids and evidence statuses, and excerpts asked for by line range instead of
  citation.
- Index building reads a file twice, for its digest and for its chunks; the model reads it once.
- Limits: warnings, evidence texts, details' row order and columns, sources, and the path for malformed
  dictionaries that ends in a failed promotion. Python's rounding of binary fractions is decimal rounding
  with ties to even here. String forms of dates, and statuses outside the known ones, count as none.
- Pages: HTTP envelopes, cursors' encoding and signature, and resources other than paged lists. A page's
  metadata and rows are read from one store.
- Hermes: tasks and texts of a result; naive datetimes; the process's own output and exit code.
- Diagnostics: the JSON text and its duplicate keys; raw values of wrong Python types other than in a
  parsed mapping; the redaction patterns themselves. A `Code` value stands for a supported reason code.
- Timezone preferences, settings, routing, rendering and the other parts of the repository that are
  neither stateful nor branching enough to need a proof.
