# Mergiate Core: verified engines

Mergiate Core is an ERP back end. Most of it stores and lists records; a handful of small engines inside
it carry guarantees that no example can settle. This project models those engines in Dafny and proves
what they promise, for every input, every run and every interleaving the model admits.

| engine | modules |
|---|---|
| start-up order of modules | `StringOrder`, `DependencyGraph`, `ModuleRegistry` |
| document numbering | `Decimal`, `Calendar`, `NumberFormat`, `NumberMeaning`, `NumberOrder`, `AnyTemplate`, `SequenceEngine`, `SequenceUsecase`, `SequenceStore`, `NumberUniqueness`, `VaryingExtras` |
| unit conversion | `UnitConversion` |
| organization hierarchy | `Hierarchy`, `OrganizationUsecase`, `OrganizationTree`, `TenantTree` |
| rate limiting | `RateLimit` |
| transactional outbox and event bus | `EventBus`, `Outbox`, `OutboxProtocol`, `OutboxProgress` |
| document lifecycle and totals | `Transactions`, `DocumentTotals`, `Quantities`, `DocumentLifecycle`, `DocumentNumbering` |
| custom fields | `CustomFields` |

`Shared` and `Text` hold the vocabulary the others use. `dafny verify dfyconfig.toml` checks everything.

Conventions: float64 is `real`, int64 and times are `int` (or a civil date plus nanoseconds where the
calendar matters), a UUID is an `Id`. The clock is an argument that never runs backwards. Go's random map
order is a nondeterministic choice, so every contract holds for every order. Failures of storage, marks,
handlers and module callbacks are arguments. Object state that the code updates in place is a class; the
methods are tied to specification functions or predicates, and the run theorems are about those.

## What turned out not to hold

Each of these is a lemma or a method contract; where the code meets a property only under a condition,
the condition is exact unless the item says otherwise.

- Take a well-formed template, brace-free texts and the years 0 to 9999. A number sequence whose calls all
  pass **the same extra tokens** never repeats a number **if and only if** its template contains a SEQ token
  that no extra token overrides and the tokens that pin its reset period (`NeverRepeatsIff`). The default
  template `{PREFIX}/{YYYY}/{MM}/{SEQ:4}` shows no day, so a sequence created without a template repeats
  itself exactly when it resets daily (`DefaultNeverRepeatsIff`).
- If the extra tokens differ from call to call that is not enough: with `{ORG}{SEQ:1}`, counter 1 with ORG
  11 and counter 11 with ORG 1 are both 111 (`VaryingExtrasRepeat`). It is enough if counter and period
  stand after the last extra token, or before the first, with something other than a digit between the
  counter and them (`SecureNumbersAreUnique`; a sufficient condition).
- On well-formed templates the formatted number is independent of map iteration order **if and only if** no
  extra's value contains the token of another extra, except where that other extra's value reads like its
  own token (`OrderFreeIff`, and on the texts alone `OrderFreeIffTexts`; extras hidden behind a built-in
  name do not count, because no well-formed template shows them). On arbitrary templates, with brace-free
  extras under names of their own, it is so **if and only if** no extra's value occurs inside the key of
  another extra (`AlwaysOrderFreeIff`): `{{k}}` with k = l and l = v gives v or `{l}`, and an empty value
  occurs in every key.
- A failing `CreateDocument` leaves the document tables alone but not the counter: a number acquired from
  the sequence engine is committed before the document is written. The counter changes **if and only if**
  organization and type are given, no number was typed, an active counter is found and its storage works
  (`DocumentUsecase.CreateDocument`; `FailureLosesANumber` is such a call). So the counter has no gaps, but
  the numbers on documents are start + k * increment within a period **if and only if** no number was lost
  before a later document of that period was numbered (`DocumentsGapFreeIff`).
- A SEQ width above `fmt`'s limit prints an error text instead of padding; this is modelled, and uniqueness
  holds even then.
- `Update` of an organization cannot clear a parent (`ParentsAreNeverCleared`), and it does not check whose
  organization the new parent is. Each tenant's own view stays acyclic, but two tenants can close a cycle
  between them (`TwoTenantsCanCloseACycle`). A serial run keeps the whole table acyclic **if and only if**
  every update in it would also pass the cycle check made on the rows of all tenants
  (`RunsGloballyAcyclicIff`); checking that the new parent is the tenant's own would be enough
  (`OwnParentsStayAcyclic`). A tenant's tree loses organizations exactly when one of them hangs below
  another tenant's (`TreeIsComplete`).
- `TransitionDocument` can return an error although the transition was committed: the final re-read may
  fail, and it does so exactly when that read fails (`RefreshFailed` in
  `DocumentUsecase.TransitionDocument`).
- Line currencies are compared with the document currency as typed. A lower-case document currency rejects
  every line that states a currency (`UnnormalizedCurrencyRejects`), and one that is not three letters long
  after normalisation panics (`BuildLines`, which states exactly when lines are accepted).
- A stored subtotal need not be the rounded price times the stored quantity: the subtotal is computed from
  the quantity as typed, the column keeps four decimals (`RecomputationCanFail`). It is, at every price,
  **if and only if** the typed quantity has at most four decimals (`RecomputesIff`).
- Custom-field defaults are stored without validation, so re-validating an output returns it exactly when
  every default that was filled in validates to itself (`RevalidationIff`; `BadDefaultIsRefused` and
  `IntegerDefaultChanges` are definitions where it does not).
- If failure marks are lost, an event can be kept waiting for any number of batches **if and only if** its
  rivals (other eligible events stamped no later) fill a batch (`CanWaitForeverIff`, `LostMarksStarve`);
  in a run with L lost marks the wait is bounded (`StarvationBound`).
- A handler subscribed to `a.*` runs twice for an event whose type is literally `a.*`
  (`PatternAsTypeRunsTwice`); `RunsAreCounted` says how often every handler runs.
- When a module's `Init` fails the resolved order is already recorded, so a later shutdown can stop a module
  that was never started (`StopsAModuleNeverStarted`); it stops only started modules **if and only if** no
  module before the last in the order fails to start (`StopsOnlyStartedIff`).
- A nested `WithTx` joins the enclosing transaction. A failed statement aborts the whole transaction even
  if its error is ignored (`AllOrNothing`). If a nested call returns an error of its own and the callback
  ignores it, the transaction can commit part of that call, and does so **if and only if** the call had
  written before (`NestedCallsStayWholeIff`).
- The duplicate check of `CreateSequence` overlooks inactive sequences; the unique constraint then turns the
  insert into a storage error (`SequenceUsecase.Usecase.CreateSequence`).

Where the documentation and the code differ, the code is followed: `docs/document-sequences.md` describes
daily resets by truncating instants to 24 hours, the code compares year and day of year in UTC; a comment
in `ListLines` says that lines reflect the document currency, the code attaches IDR to all of them, so
stored lines carry amounts only.

## Model

| member | source | states |
|---|---|---|
| `StringOrder.Sort` | pkg/module/registry.go:162-175 | sorting yields an ascending permutation of the names, duplicates kept |
| `StringOrder.LeqIff` | pkg/module/registry.go:162-175 | names are compared as Go compares strings: a name comes first if it starts the other, or has the smaller character at the first difference |
| `DependencyGraph.LeastReadyFirstIsSmallest` | pkg/module/registry.go:164-178 | always taking the least ready name beats every topological order lexicographically |
| `DependencyGraph.CompleteGreedyIsTopological` | pkg/module/registry.go:164-184 | a greedy run that covers all modules is the smallest topological order |
| `DependencyGraph.SmallestIsUnique` | pkg/module/registry.go:161-178 | at most one order is the smallest, so the outcome depends on the graph alone |
| `DependencyGraph.StuckIsCyclic` | pkg/module/registry.go:180-182 | if modules remain but none is ready, the dependency graph has a cycle (self-dependencies included) |
| `DependencyGraph.CyclicHasNoOrder` | pkg/module/registry.go:180-182 | a cyclic graph has no topological order at all |
| `ModuleRegistry.BuildGraph` | pkg/module/registry.go:134-152 | reports a dependency that is really missing, or leaves in-degrees and reverse edges that count every `DependsOn` entry with multiplicity, for every map order |
| `ModuleRegistry.InitialQueue` | pkg/module/registry.go:154-162 | the queue holds exactly the modules of in-degree zero, once each, sorted |
| `ModuleRegistry.Decrement` | pkg/module/registry.go:172-176 | one decrement keeps the queue exact: a module enters it once, when its in-degree reaches zero |
| `ModuleRegistry.Release` | pkg/module/registry.go:171-177 | after a module is resolved the in-degrees again count unresolved entries, also with duplicate dependencies |
| `ModuleRegistry.Drain` | pkg/module/registry.go:164-178 | the loop ends; each module taken was the least ready one, and afterwards none is ready |
| `ModuleRegistry.CompleteIffAcyclic` | pkg/module/registry.go:180-184 | all modules are resolved if and only if the graph is acyclic, and then in the smallest topological order |
| `ModuleRegistry.Registry.Register` | pkg/module/registry.go:56-75 | nil modules and empty names are refused, then duplicates; otherwise exactly one entry is added and nothing else changes |
| `ModuleRegistry.Registry.ResolveOrderLocked` | pkg/module/registry.go:133-185 | missing dependency, cycle and success are told apart exactly, with the name of a dependency that is really absent and the number of modules that could be resolved; success is the smallest topological order of the registered modules: every module once, after all it depends on |
| `ModuleRegistry.ResolvedMeaning` | pkg/module/registry.go:133-185 | stated on the modules: a successful answer holds each registered module once, behind all its dependencies; a dependency is reported missing if and only if some module names one that is not registered |
| `ModuleRegistry.IndependentPair` | pkg/module/registry.go:154-185 | modules a and b without dependencies resolve to a, b |
| `ModuleRegistry.Registry.ResolveOrder` | pkg/module/registry.go:121-131 | as above, and the stored order changes only on success |
| `ModuleRegistry.Registry.InitAll` | pkg/module/registry.go:188-210 | modules start in resolved order; on failure exactly a prefix was started and the last of it is the culprit |
| `ModuleRegistry.Registry.ShutdownAll` | pkg/module/registry.go:294-313 | every module is stopped, in reverse order, whatever the others answer; the failing ones are reported, in the order they were stopped |
| `ModuleRegistry.ResolutionIsDeterministic` | pkg/module/registry.go:133-185 | for one set of modules the outcome kind is determined and two successful answers are equal, whatever the map and registration order |
| `ModuleRegistry.DependentsStopFirst` | pkg/module/registry.go:293-313 | reverse shutdown stops every module before anything it depends on |
| `ModuleRegistry.StopsOnlyStartedIff` | pkg/module/registry.go:196-206 | after a start, shutdown stops only modules whose `Init` was called if and only if no module before the last in the order fails to start |
| `ModuleRegistry.StartThenStop` | pkg/module/registry.go:187-313 | the same for the two calls one after the other, on every registry and every pattern of failures |
| `ModuleRegistry.StopsAModuleNeverStarted` | pkg/module/registry.go:196-206 | a registry of two modules in which shutdown stops one that was never started |
| `UnitConversion.BuildAdjacency` | internal/core/domain/product/unit.go:58-67 | the adjacency lists hold exactly the forward and inverse edges of conversions with factor at least 1e-9 in absolute value |
| `UnitConversion.Expand` | internal/core/domain/product/unit.go:85-93 | expanding a node keeps the breadth-first invariant: two levels in the queue, each visited node reached by a valid path carrying its product |
| `UnitConversion.FrontIsShortest` | internal/core/domain/product/unit.go:77-83 | the node at the head of the queue was reached with the fewest hops |
| `UnitConversion.ExhaustedMeansUnconnected` | internal/core/domain/product/unit.go:96 | an empty queue means no path exists |
| `UnitConversion.Convert` | internal/core/domain/product/unit.go:48-97 | terminates; succeeds exactly on connected units; the result is the amount times the factor product along some path with the fewest hops |
| `UnitConversion.ConvertibleIff` | internal/core/domain/product/unit.go:58-97 | two units convert if and only if a chain of conversions, each with a factor of at least 0.000000001 in absolute value and read in either direction, leads from one to the other |
| `UnitConversion.OneConversion` | internal/core/domain/product/unit.go:58-97 | with one conversion of factor f between two units both directions succeed if and only if f is at least 0.000000001 in absolute value; forwards gives amount * f, backwards amount / f |
| `UnitConversion.ConvertsBothWays` | internal/core/domain/product/unit.go:63-66 | on every table a conversion succeeds if and only if its inverse does |
| `UnitConversion.ConsistentValue` | internal/core/domain/product/unit.go:48-97 | on consistent tables the result is amount times source weight over target weight, whatever path was taken |
| `UnitConversion.RoundTrip` | internal/core/domain/product/unit.go:48-97 | on consistent tables converting there and back returns the amount |
| `UnitConversion.Composition` | internal/core/domain/product/unit.go:48-97 | on consistent tables converting through an intermediate unit succeeds directly too, with the same result |
| `Hierarchy.BuildParentMap` | internal/core/domain/organization/organization.go:53-57 | the loop yields the parent map of the list, later duplicates winning |
| `Hierarchy.CheckCircularReference` | internal/core/domain/organization/organization.go:44-75 | terminates on every list; accepts exactly the changes after which the moved organization's parent chain ends; on an acyclic hierarchy exactly those that keep it acyclic; each error kind means what it says |
| `Hierarchy.ReparentAcyclic` | internal/core/domain/organization/organization.go:43-75 | on an acyclic hierarchy the moved node's finite chain is equivalent to global acyclicity |
| `Hierarchy.AcyclicIsFinite` | internal/core/domain/organization/organization.go:59-72 | in an acyclic finite hierarchy every chain of parents ends |
| `Hierarchy.RepeatIsCycle` | internal/core/domain/organization/organization.go:67-69 | meeting a node twice means a cycle and a chain that never ends |
| `OrganizationUsecase.Usecase.Create` | internal/core/usecase/organization/organization_usecase.go:49-116 | inserts exactly one normalised row (active, a company by default, the code trimmed and in lower case) under an active parent of the same tenant, if and only if code and name are non-empty, the code is free within the tenant and every read and write works; otherwise changes nothing; each error occurs exactly on its cause; keeps every hierarchy acyclic |
| `OrganizationUsecase.Usecase.Update` | internal/core/usecase/organization/organization_usecase.go:150-196 | rewrites exactly one row, with a new parent only if the chain stays finite, empty fields keeping the stored values, if and only if every read and write works; otherwise changes nothing; missing rows and cycles are reported exactly when there are any; keeps every hierarchy acyclic |
| `OrganizationUsecase.Merge` | internal/core/usecase/organization/organization_usecase.go:174-193 | each field of the written row is the given value, or the stored one where nothing is given; parents are not cleared, tenant and code never change |
| `Text.TrimMeans` | internal/core/usecase/organization/organization_usecase.go:55-56 | trimming takes off white space at both ends, all of it and nothing else |
| `OrganizationUsecase.ListByTenant` | internal/core/usecase/organization/organization_usecase.go:163-166 | the list holds exactly the tenant's rows, with their names and parents, once each, in any order |
| `OrganizationUsecase.CreateKeepsSound` | internal/core/usecase/organization/organization_usecase.go:75-113 | a new row never closes a cycle in any tenant |
| `OrganizationUsecase.UpdateKeepsSound` | internal/core/usecase/organization/organization_usecase.go:161-193 | an accepted update never closes a cycle in any tenant's view |
| `OrganizationUsecase.RunsStayAcyclic` | internal/core/usecase/organization/organization_usecase.go:49-196 | every tenant's hierarchy is acyclic in every state of every serial run |
| `OrganizationUsecase.RunsKeepCodesDistinct` | internal/core/usecase/organization/organization_usecase.go:66-73 | in every state of every serial run no two organizations of a tenant share a code |
| `OrganizationUsecase.ParentsAreNeverCleared` | internal/core/repository/postgres/sqlc/organizations.sql.go:216-227 | COALESCE: once an organization has a parent it always has one |
| `OrganizationUsecase.UpdateGloballyAcyclicIff` | internal/core/usecase/organization/organization_usecase.go:161-172 | an accepted update keeps the whole table acyclic if and only if the same check on the rows of all tenants accepts it |
| `OrganizationUsecase.RunsGloballyAcyclicIff` | internal/core/usecase/organization/organization_usecase.go:49-196 | a serial run keeps the whole table acyclic if and only if every update in it passes that check |
| `OrganizationUsecase.OwnParentsStayAcyclic` | internal/core/usecase/organization/organization_usecase.go:161-172 | a run whose updates name parents of their own tenant keeps the whole table acyclic and every parent in its tenant |
| `OrganizationUsecase.TwoTenantsCanCloseACycle` | internal/core/usecase/organization/organization_usecase.go:161-172 | a run of successful calls after which the whole table has a cycle although each tenant's view is acyclic |
| `OrganizationTree.Index` | internal/core/domain/organization/organization.go:79-90 | the two maps and the root list describe the input exactly, in input order |
| `OrganizationTree.BuildNode` | internal/core/domain/organization/organization.go:92-101 | the recursion ends and yields the organization with exactly its children, in input order, recursively |
| `OrganizationTree.BuildTree` | internal/core/domain/organization/organization.go:78-109 | terminates on every list with unique identifiers, cycles and dangling parents included; roots and siblings are in input order |
| `OrganizationTree.KeepInputOrder` | internal/core/domain/organization/organization.go:83-106 | roots and siblings stand in the order of the input |
| `OrganizationTree.DepthBound` | internal/core/domain/organization/organization.go:93-100 | the recursion depth below a root is less than the number of organizations |
| `OrganizationTree.NoDupForest` | internal/core/domain/organization/organization.go:103-106 | trees hanging from different organizations of equal depth share no node |
| `OrganizationTree.ForestIsExact` | internal/core/domain/organization/organization.go:78-109 | flattening shows every organization whose parent chain reaches a listed root, exactly once, and nothing else |
| `TenantTree.TreeIsComplete` | internal/core/usecase/organization/organization_usecase.go:142-148 | on acyclic tables the tree shows all organizations of a tenant if and only if none hangs below another tenant's |
| `TenantTree.ForestMirrors` | internal/core/usecase/organization/organization_usecase.go:142-148 | the forest built from a listing of the rows mirrors the table: roots, children, names and parents are those of the rows |
| `TenantTree.GetTree` | internal/core/usecase/organization/organization_usecase.go:142-148 | the roots are the tenant's rows without a parent and the children of a node exactly the tenant's rows that name it as parent, with their names, recursively; each row occurs at most once, and all of them under the same exact condition |
| `RateLimit.InMemoryLimiter.constructor` | pkg/ratelimit/ratelimit.go:84-98 | a positive limit or window is kept, anything else becomes 300 requests and one minute; no buckets yet |
| `RateLimit.EvictBefore` | pkg/ratelimit/ratelimit.go:110-115 | drops exactly the leading timestamps before the window start |
| `RateLimit.InMemoryLimiter.Allow` | pkg/ratelimit/ratelimit.go:100-141 | verdict and new buckets are the specified functions of the old buckets, key and time |
| `RateLimit.InMemoryLimiter.PurgeStale` | pkg/ratelimit/ratelimit.go:166-180 | removes exactly the buckets that are empty or whose last timestamp is before the window, leaving the others as they are, for every map order |
| `RateLimit.LiveIsWindow` | pkg/ratelimit/ratelimit.go:110-117 | what survives eviction is exactly the full history's window [now-W, now] |
| `RateLimit.WindowCounts` | pkg/ratelimit/ratelimit.go:110-117 | the window of a history holds every timestamp in the closed interval as often as the history, and no other |
| `RateLimit.RemainingIsExact` | pkg/ratelimit/ratelimit.go:128-140 | after an allowed request exactly `remaining` further requests at the same moment are allowed |
| `RateLimit.PurgingIsUnobservable` | pkg/ratelimit/ratelimit.go:100-180 | on every interleaving of requests and purges over any keys the answers equal those of a limiter that keeps everything |
| `RateLimit.LimiterMatchesReference` | pkg/ratelimit/ratelimit.go:100-180 | the same for a fresh limiter, with no other condition than a clock that does not run backwards |
| `RateLimit.AdmittedIsHistory` | pkg/ratelimit/ratelimit.go:128-129 | the reference history of a key is the list of requests the limiter admitted |
| `RateLimit.AdmissionRule` | pkg/ratelimit/ratelimit.go:117-129 | a request is allowed if and only if fewer than the limit were ever allowed or the limit-th most recent one left the window; a denial announces when it leaves |
| `RateLimit.NoWindowOverflows` | pkg/ratelimit/ratelimit.go:110-129 | over any run, no closed interval of one window length holds more allowed requests of a key than the limit |
| `RateLimit.DeniedUntilReset` | pkg/ratelimit/ratelimit.go:117-126 | after a denial every request up to and including the reset time is denied and leaves no trace; the next later one is allowed |
| `RateLimit.LimiterDeniesUntilReset` | pkg/ratelimit/ratelimit.go:117-140 | the same for the limiter itself, after any run, with any purges and other keys in between |
| `RateLimit.Reachable` | pkg/ratelimit/ratelimit.go:77-180 | in every reachable state the buckets have forgotten only timestamps no later window can reach |
| `Decimal.PaddedRoundTrip` | internal/core/domain/sequence/sequence.go:139-140 | a zero-padded number reads back as itself, also when it outgrew its padding |
| `Decimal.PaddedFits` | internal/core/domain/sequence/sequence.go:115-118 | a number below 10^k padded to k digits takes exactly k characters |
| `Calendar.YearDayDetermines` | internal/core/domain/sequence/sequence.go:69-70 | within a year, equal day-of-year means equal month and day, leap years included |
| `Calendar.MonthsAddUp` | internal/core/domain/sequence/sequence.go:69-70 | the months follow each other without gaps and make up 365 days, 366 in leap years |
| `NumberFormat.FormatNumber` | internal/core/domain/sequence/sequence.go:107-144 | the result is the chain of rewriting passes for some iteration order of the extra tokens |
| `NumberFormat.SeqMatch` | internal/core/domain/sequence/sequence.go:94-141 | the pattern matches at a token exactly when its name is SEQ or SEQ:digits, and yields the padded value |
| `NumberFormat.RewriteIsSubstitute` | internal/core/domain/sequence/sequence.go:113-123 | one textual pass over a well-formed template is one substitution of its tokens |
| `NumberFormat.RewriteAllIsSubstituteAll` | internal/core/domain/sequence/sequence.go:112-141 | a chain of passes with brace-free values is a chain of token substitutions |
| `NumberFormat.FormatIsRender` | internal/core/domain/sequence/sequence.go:107-144 | on well-formed templates the chain equals a one-pass renderer (built-ins, then extras, then SEQ, unknown tokens verbatim), so it does not depend on map order |
| `NumberMeaning.DateTokens` | internal/core/domain/sequence/sequence.go:113-118 | MM and DD are two digits that read as month and day, YYYY reads as the year (four digits up to 9999), YY as the year modulo 100; PREFIX and SUFFIX are copied |
| `NumberMeaning.SeqWidths` | internal/core/domain/sequence/sequence.go:128-138 | a SEQ token asks for the width written in it, else for the padding of the sequence, else for four; a width of zero or beyond int counts as none |
| `NumberMeaning.CounterToken` | internal/core/domain/sequence/sequence.go:126-141 | a SEQ token is the numeral of the counter, padded with zeros up to its width and no further |
| `NumberMeaning.OverLimitToken` | internal/core/domain/sequence/sequence.go:139-140 | a width beyond the limit of `fmt` prints its error text, with the counter inside |
| `NumberMeaning.NegativeNumerals` | internal/core/domain/sequence/sequence.go:115-140 | years and counters below zero are written with a minus sign before their numeral |
| `NumberMeaning.DefaultRendering` | internal/core/domain/sequence/sequence.go:107-144 | the default template renders as prefix, four-digit year, two-digit month and counter of at least four digits, between slashes |
| `NumberMeaning.NumberOnDefault` | internal/core/repository/postgres/sequence_repo.go:189-200 | what a sequence on the default template hands out: its prefix, year and month of the call and the next value of its counter |
| `NumberMeaning.FirstQuotation` | internal/core/usecase/sequence/sequence_usecase.go:92-151 | a sequence created with prefix QUO and nothing else starts September 2026 with QUO/2026/09/0001 |
| `NumberOrder.ChainIsSplices` | internal/core/domain/sequence/sequence.go:112-141 | with values that contain tokens, the chain of passes splices the pieces of the values into the template in visiting order |
| `NumberOrder.SafeIsDirect` | internal/core/domain/sequence/sequence.go:120-141 | if no shown value contains another extra's token (neutral ones aside), every order gives the simultaneous reading of the template |
| `NumberOrder.OrderMatters` | internal/core/domain/sequence/sequence.go:120-123 | if a shown value contains the token of another extra that is not neutral, two different results are possible, whatever the other extras are |
| `NumberOrder.OrderFreeIff` | internal/core/domain/sequence/sequence.go:107-144 | every well-formed template and counter have one result if and only if no shown value contains another extra's token, neutral ones aside |
| `NumberOrder.NeutralIffReadsAs` | internal/core/domain/sequence/sequence.go:126-141 | an extra (a SEQ key within the width limit of `fmt`, or any other key) is neutral if and only if its value is its own token or a SEQ token of the same width |
| `NumberOrder.OrderFreeIffTexts` | internal/core/domain/sequence/sequence.go:107-144 | the condition for order independence on the texts of the extras alone |
| `AnyTemplate.PassesCommute` | internal/core/domain/sequence/sequence.go:120-123 | on every text two replacements commute if neither value occurs in the other key |
| `AnyTemplate.InsideDependsOnOrder` | internal/core/domain/sequence/sequence.go:120-123 | if a value occurs in another key, some template and counter have two results, whatever the other extras are |
| `AnyTemplate.AlwaysOrderFreeIff` | internal/core/domain/sequence/sequence.go:107-144 | every template, ill-formed ones included, and every counter have one result if and only if no value occurs in the key of another extra |
| `SequenceEngine.ResetMeansNewPeriod` | internal/core/domain/sequence/sequence.go:55-74 | a counter resets if and only if it was used before and the year, month or day of its policy has changed since |
| `SequenceEngine.Created` | internal/core/usecase/sequence/sequence_usecase.go:92-151 | normalisation yields start and increment of at least one, counter zero and no reset time |
| `SequenceEngine.CreatedKeeps` | internal/core/usecase/sequence/sequence_usecase.go:92-151 | what is given is kept; padding, start and increment that are not positive become 4, 1 and 1, a missing policy becomes never |
| `SequenceEngine.DefaultIsFilledIn` | internal/core/usecase/sequence/sequence_usecase.go:105-107 | a missing template becomes {PREFIX}/{YYYY}/{MM}/{SEQ:4} |
| `SequenceUsecase.PolicyNames` | internal/core/domain/sequence/sequence.go:15-29 | exactly never, yearly, monthly and daily are understood, each as its policy |
| `SequenceUsecase.Usecase.CreateSequence` | internal/core/usecase/sequence/sequence_usecase.go:75-158 | inserts the normalised row (keys trimmed and in lower case) if and only if the fields are filled, the policy is known, code and entity are free among all rows of the tenant and storage works; otherwise changes nothing; bad input and duplicates are reported exactly when there are any; keeps one row per code and per entity |
| `SequenceEngine.NextIsCounted` | internal/core/domain/sequence/sequence.go:77-92 | the value computed from the stored row is start plus increment times the numbers already issued in the period |
| `SequenceEngine.CommitKeepsLog` | internal/core/repository/postgres/sequence_repo.go:189-215 | committing the computed row keeps row and history of issued numbers in step |
| `SequenceEngine.StepKeepsInv` | internal/core/repository/postgres/sequence_repo.go:168-218 | every begin, lock, compute, write, commit, rollback, clock tick and (de)activation keeps the invariant: only the lock holder works on the row and sees the committed version |
| `SequenceEngine.RunKeepsInv` | internal/core/repository/postgres/sequence_repo.go:166-218 | the invariant holds in every state of every interleaving of any number of clients |
| `SequenceEngine.KthNumberOfPeriod` | internal/core/repository/postgres/sequence_repo.go:166-218 | the k-th committed value of a reset period is start + k * increment, in commit order, with rollbacks anywhere |
| `SequenceEngine.StrictlyIncreasing` | internal/core/repository/postgres/sequence_repo.go:166-218 | within a period committed values strictly increase |
| `SequenceStore.Store.AcquireNextNumber` | internal/core/repository/postgres/sequence_repo.go:168-218 | hands out the number due and advances that row alone, if and only if there is an active row and storage works; otherwise changes no row |
| `SequenceStore.Store.PreviewNextNumber` | internal/core/usecase/sequence/sequence_usecase.go:236-254 | returns the number due and changes nothing |
| `SequenceStore.PreviewIsNext` | internal/core/usecase/sequence/sequence_usecase.go:249-253 | a preview equals the number an acquisition at the same moment hands out and stores as the last one |
| `NumberUniqueness.RenderingDetermines` | internal/core/domain/sequence/sequence.go:107-144 | equal renderings that show counter and period have equal counter and period, even after the counter outgrew its padding |
| `NumberUniqueness.NumbersAreUnique` | internal/core/repository/postgres/sequence_repo.go:166-218 | over every run of concurrent clients that pass the same extra tokens all issued numbers are pairwise distinct |
| `NumberUniqueness.AcquireOnce` | internal/core/repository/postgres/sequence_repo.go:168-218 | an undisturbed call is five steps of the interleaved model with the effect of one acquisition |
| `NumberUniqueness.CounterIsNeeded` | internal/core/domain/sequence/sequence.go:126-141 | without a live SEQ token the counter does not show in the number |
| `NumberUniqueness.HiddenRepeats` | internal/core/domain/sequence/sequence.go:55-144 | without the SEQ token or the period's tokens some run repeats a number |
| `NumberUniqueness.NeverRepeatsIff` | internal/core/domain/sequence/sequence.go:55-144 | with one set of brace-free extra tokens in all calls, a well-formed template and years 0-9999, a new sequence never repeats a number over all runs if and only if its template shows the counter and the reset period |
| `NumberUniqueness.DefaultShows` | internal/core/usecase/sequence/sequence_usecase.go:105-107 | the default template shows the period of every policy except daily |
| `NumberUniqueness.DefaultNeverRepeatsIff` | internal/core/usecase/sequence/sequence_usecase.go:89-107 | with one set of brace-free extra tokens in all calls and years 0-9999, a sequence created without a template never repeats exactly when it does not reset daily and SEQ:4 is not overridden |
| `VaryingExtras.VaryingExtrasRepeat` | internal/core/domain/sequence/sequence.go:120-141 | a run of two calls with different extra tokens that issues one number twice although the template shows counter and period |
| `VaryingExtras.EndDetermines` | internal/core/domain/sequence/sequence.go:107-144 | a counter and period after the last extra token, set off by a non-digit, can be read off the text whatever the extras are |
| `VaryingExtras.StartDetermines` | internal/core/domain/sequence/sequence.go:107-144 | the same before the first extra token |
| `VaryingExtras.SecureNumbersAreUnique` | internal/core/repository/postgres/sequence_repo.go:166-218 | on such templates all numbers issued over every run are pairwise distinct, with any brace-free extra values in each call |
| `EventBus.InMemoryBus.Subscribe` | pkg/eventbus/eventbus.go:41-46 | the map is again the one that the history of subscriptions, this one included, leads to |
| `EventBus.SubscribersAreInvoked` | pkg/eventbus/eventbus.go:41-67 | a publication invokes exactly the handlers of the matching subscriptions made before it |
| `EventBus.RunsAreCounted` | pkg/eventbus/eventbus.go:41-67 | a publication invokes a handler once per subscription to exactly that type and once per subscription to a matching wildcard |
| `EventBus.PatternAsTypeRunsTwice` | pkg/eventbus/eventbus.go:52-67 | one subscription to `a.*` runs twice for an event of type `a.*` |
| `EventBus.InMemoryBus.Collect` | pkg/eventbus/eventbus.go:49-68 | collects exact subscribers, then those of every matching wildcard, for some map order |
| `EventBus.InMemoryBus.Publish` | pkg/eventbus/eventbus.go:48-91 | invokes every collected handler even after failures and panics; reports one error per handler that failed or panicked |
| `EventBus.CollectionIsDeterministic` | pkg/eventbus/eventbus.go:57-67 | whatever the map order, the same handlers run equally often |
| `EventBus.InvokesAllMatching` | pkg/eventbus/eventbus.go:52-67 | exactly the subscribers of the type, of `*` and of matching `prefix.*` patterns run |
| `EventBus.ConcernsIff` | pkg/eventbus/eventbus.go:52-67 | on texts: a pattern concerns a type if it is that type, is `*`, or is p followed by `.*` where the type is p, a dot and anything |
| `EventBus.InvokedIff` | pkg/eventbus/eventbus.go:41-67 | after any subscriptions a publication invokes a handler if and only if one of its patterns concerns the type |
| `EventBus.OneSubscription` | pkg/eventbus/eventbus.go:41-67 | a subscriber to `*` is always invoked; one to `p.*` exactly for `p.*` and for types p, dot, anything; any other exactly for its own type |
| `Outbox.OutboxWorker.constructor` | internal/core/worker/outbox_worker.go:34-51 | a positive batch size or retry limit is kept, anything else becomes 50 and 5 |
| `Outbox.OutboxWorker.ProcessOne` | internal/core/worker/outbox_worker.go:95-116 | publishes one row; if the mark is stored the row becomes published when all its handlers succeeded, else failed with one retry more; no other row changes |
| `Outbox.OutboxWorker.ProcessBatch` | internal/core/worker/outbox_worker.go:83-119 | attempts exactly the fetched rows in order; the table changes by those attempts only; the result counts stored deliveries |
| `OutboxProtocol.RunKeepsInv` | internal/core/worker/outbox_worker.go:83-119 | over every run with arrivals, restarts, failing handlers and failing marks, each row agrees with its attempts |
| `OutboxProtocol.PublishedOnlyAfterSuccess` | internal/core/worker/outbox_worker.go:95-115 | a published row had one publication in which every matching handler ran and succeeded |
| `OutboxProtocol.RetriesAreCounted` | internal/core/repository/postgres/sqlc/outbox.sql.go:111-117 | the retry count is the number of recorded failures and never exceeds the limit |
| `OutboxProtocol.PublishedIsAbsorbing` | internal/core/repository/postgres/sqlc/outbox.sql.go:63-72 | a published row never changes again |
| `OutboxProtocol.BatchIsRun` | internal/core/worker/outbox_worker.go:83-119 | a worker's batch is one fetch and one protocol step per fetched row |
| `OutboxProgress.BatchUsesWork` | internal/core/worker/outbox_worker.go:95-116 | every attempt of a batch uses up at least one of the attempts its row had left, unless its mark is lost |
| `OutboxProgress.PassedOver` | internal/core/repository/postgres/sqlc/outbox.sql.go:63-72 | a batch that passes an event over leaves it alone and uses a full batch of its earlier competitors' attempts, lost marks aside |
| `OutboxProgress.AttemptedInTime` | internal/core/worker/outbox_worker.go:83-119 | the attempts its competitors have left and the marks lost bound an event's wait |
| `OutboxProgress.FewRivalsAreFetched` | internal/core/repository/postgres/sqlc/outbox.sql.go:63-72 | with fewer eligible rivals stamped no later than a batch holds, every fetch contains the event |
| `OutboxProgress.StarvationBound` | internal/core/worker/outbox_worker.go:83-119 | with at most L lost marks, an event with k eligible rivals stamped no later is attempted within floor((k * MaxRetries + L) / BatchSize) + 1 batches, and in the first one if k is less than BatchSize |
| `OutboxProgress.Drains` | internal/core/worker/outbox_worker.go:83-119 | without arrivals, as many batches as there are attempts left plus marks lost leave every row published or out of retries |
| `OutboxProgress.LostMarksStarve` | internal/core/worker/outbox_worker.go:99-105 | on every table whose rivals fill a batch, failing attempts with lost marks keep the event waiting for any number of batches |
| `OutboxProgress.CanWaitForeverIff` | internal/core/worker/outbox_worker.go:83-119 | an event can wait for any number of batches if and only if its rivals fill a batch; otherwise not even for one |
| `DocumentTotals.NewMoney` | pkg/sdk/money.go:17-26 | succeeds exactly on three-letter codes after normalisation, which it stores |
| `DocumentTotals.NormalizeIsIdempotent` | pkg/sdk/money.go:18 | normalising a code twice is normalising it once |
| `DocumentTotals.NormalCode` | pkg/sdk/money.go:18 | a code is the text without surrounding spaces, letter by letter in capitals |
| `DocumentTotals.RoundIsNearest` | pkg/sdk/money.go:103-115 | rounding moves by at most half a minor unit and is symmetric around zero |
| `DocumentTotals.HalvesRoundAway` | pkg/sdk/money.go:103-115 | halves are rounded away from zero |
| `DocumentTotals.BuildLine` | internal/core/usecase/document/document_usecase.go:148-193 | a line is accepted exactly when quantity, unit and currency are, and otherwise refused for the first of these that is not; it carries the document currency and its rounded subtotal, which is added to the total |
| `DocumentTotals.BuildLines` | internal/core/usecase/document/document_usecase.go:136-194 | succeeds exactly on acceptable input, and otherwise names the first bad line and its first fault; lines are numbered 1..n, all in one normalised currency; the total is the sum of the subtotals |
| `DocumentTotals.CurrencyIsChosen` | internal/core/usecase/document/document_usecase.go:136-143 | the document currency is the typed one, else that of the first line, else IDR |
| `DocumentTotals.TotalIsClose` | internal/core/usecase/document/document_usecase.go:145-167 | the total lies within n/2 minor units of the exact sum of price times quantity |
| `DocumentTotals.UnnormalizedCurrencyRejects` | internal/core/usecase/document/document_usecase.go:155-160 | a document currency not in normal form rejects every line that states a currency |
| `Transactions.RunExact` | pkg/database/tx.go:29-48 | a callback performs exactly the writes before the error or aborted statement that ends it, nested and ignored errors included |
| `Transactions.AllOrNothing` | pkg/database/tx.go:37-47 | an outermost transaction commits every write it performed or none; it commits exactly when the callback returns no error and no statement failed, ignored or not |
| `Transactions.JoinedCallsDoNotUndo` | pkg/database/tx.go:33-35 | every failing nested call leaves the writes before its error to the enclosing transaction; alone it has no effect |
| `Transactions.NestedCallsStayWholeIff` | pkg/database/tx.go:33-47 | a committed transaction consists of whole nested calls if and only if no nested call that returned an ignored error of its own had written before |
| `DocumentLifecycle.DocumentUsecase.InTransaction` | pkg/database/tx.go:37-47 | writing step by step with rollback is the all-or-nothing transaction |
| `DocumentLifecycle.DocumentUsecase.NumberFor` | internal/core/usecase/document/document_usecase.go:100-119 | the number is the typed one, else the one acquired, else the made-up one; the counter advances exactly when one is acquired |
| `DocumentLifecycle.DocumentUsecase.CreateDocument` | internal/core/usecase/document/document_usecase.go:86-291 | succeeds exactly on acceptable input with a free number and working storage, and then writes document, lines, outbox and audit rows; otherwise changes none of these tables; a duplicate is reported exactly when a document of the tenant and type has the number, a bad line is the first one; the counter changes if and only if a number is acquired, whether the call succeeds or not |
| `DocumentLifecycle.CounterIsNamed` | internal/core/usecase/sequence/sequence_usecase.go:225-234 | the counter of a document type is the one for entity document and the type without surrounding spaces, letter by letter in lower case |
| `DocumentLifecycle.NewRowsExact` | internal/core/repository/postgres/document_repo.go:222-250 | the stored rows: one per input line, numbered from 1, with its unit and price, the stored form of its quantity and the rounded price times quantity |
| `DocumentLifecycle.DocumentUsecase.TransitionDocument` | internal/core/usecase/document/document_usecase.go:344-445 | takes effect in all four tables exactly on workflow edges with working storage; otherwise changes no table; each error means what it says |
| `DocumentLifecycle.EdgesExact` | internal/core/domain/document/workflow.go:10-45 | the edges of the workflow, listed by where each status can be entered from |
| `DocumentLifecycle.MoveEffect` | internal/core/usecase/document/document_usecase.go:376-438 | the four writes together are one move: status, log entry, event and audit row |
| `DocumentLifecycle.CreateEffect` | internal/core/usecase/document/document_usecase.go:219-285 | the writes of a creation together add one document with its lines, event and audit row |
| `DocumentLifecycle.RunKeepsInv` | internal/core/usecase/document/document_usecase.go:344-445 | in every reachable state all tables tell the same story about every document |
| `DocumentLifecycle.LogIsWorkflowPath` | internal/core/domain/document/workflow.go:10-56 | a document's log is a workflow path from draft to its status, mirrored one-to-one by its outbox and audit rows |
| `DocumentLifecycle.TerminalIsAbsorbing` | internal/core/domain/document/workflow.go:28-30 | completed, cancelled and rejected documents never change again |
| `DocumentLifecycle.ApprovedExactlyOnce` | internal/core/domain/document/workflow.go:10-31 | approved, posted and completed documents were approved exactly once; drafts, submitted and rejected ones never |
| `DocumentLifecycle.StoredTotalsBalance` | internal/core/usecase/document/document_usecase.go:121-228 | in every reachable state a stored total is the sum of the stored lines, lines are numbered from 1 and hold the subtotal of the typed quantity beside its stored form, and no two documents of a tenant and type share a number |
| `DocumentNumbering.DocumentsGapFreeIff` | internal/core/usecase/document/document_usecase.go:100-119 | over every serial run, the documents numbered from a counter are numbered start + k * increment within each period if and only if no number was lost before a later document of the period was numbered |
| `DocumentNumbering.KeptNumbersAreShown` | internal/core/usecase/document/document_usecase.go:201-219 | in every state a number that was not lost stands on its document, and no document carries two |
| `DocumentNumbering.EngineNumbersDiffer` | internal/core/usecase/document/document_usecase.go:104-111 | the engine is called without extra tokens, so on templates that show counter and period no number is drawn twice |
| `DocumentNumbering.CollisionsAreForeign` | internal/core/usecase/document/document_usecase.go:121-128 | on such templates a drawn number can be refused as a duplicate only because of a document that was numbered otherwise |
| `DocumentNumbering.CreationIsCall` | internal/core/usecase/document/document_usecase.go:86-291 | a call of `CreateDocument` is a step of these runs: the number it draws, unless empty, ends up on the document exactly when the call succeeds |
| `DocumentNumbering.FailureLosesANumber` | internal/core/usecase/document/document_usecase.go:104-150 | a creation refused for its line, after which the counter has advanced |
| `DocumentLifecycle.StoredLinesAreClose` | internal/core/repository/postgres/document_repo.go:222-250 | in every reachable state a subtotal is within half a minor unit plus 0.000050005 times the price of price times stored quantity |
| `DocumentLifecycle.PreciseLinesRecompute` | internal/core/repository/postgres/document_repo.go:222-250 | if the typed quantities of a document have at most four decimals, its subtotals can be recomputed from the stored rows in every later state |
| `Quantities.PrintedIsNearest` | internal/core/repository/postgres/address_contact_repo.go:322-329 | a quantity is printed as the nearest number with eight decimals, on a tie the one with an even last digit |
| `Quantities.StoredIffFourDecimals` | internal/core/repository/postgres/address_contact_repo.go:322-329 | printing eight decimals and storing four keeps a quantity if and only if it has at most four decimals |
| `Quantities.RecomputesIff` | migrations/000006_create_documents_and_workflow.up.sql:32-35 | a subtotal can be recomputed at every price if and only if the quantity has at most four decimals |
| `Quantities.RecomputationCanFail` | migrations/000006_create_documents_and_workflow.up.sql:32-35 | price 1,000,000 and quantity 0.00005: subtotal 50 is stored beside quantity 0.0001 |
| `CustomFields.SelectAll` | internal/core/domain/customfield/validator.go:125-136 | a decoded list is accepted exactly when every item is an allowed string, and is stored as those strings |
| `CustomFields.ValidateField` | internal/core/domain/customfield/validator.go:55-144 | a value is accepted exactly when its stored form obeys type, pattern, range and options, and that form is returned |
| `CustomFields.StoredForms` | internal/core/domain/customfield/validator.go:55-165 | numbers of every kind are stored as the same float, texts, booleans and lists of strings as they are, anything else is no value of its type |
| `CustomFields.NullIsMissing` | internal/core/domain/customfield/validator.go:26-41 | a null value and a missing one have the same outputs |
| `CustomFields.ValidateValues` | internal/core/domain/customfield/validator.go:14-53 | fails exactly when some active definition refuses; otherwise returns the only map that holds what the definitions store, the last one winning where codes repeat |
| `CustomFields.OutputIsUnique` | internal/core/domain/customfield/validator.go:19-52 | definitions and input determine the output, also when codes repeat |
| `CustomFields.AcceptedIsStable` | internal/core/domain/customfield/validator.go:55-144 | an accepted value's stored form is accepted again, unchanged |
| `CustomFields.OutputCodes` | internal/core/domain/customfield/validator.go:21-41 | the output holds active codes only and every required one |
| `CustomFields.OutputConforms` | internal/core/domain/customfield/validator.go:28-49 | every stored value obeys its definition, provided a default that was filled in does |
| `CustomFields.RevalidationIff` | internal/core/domain/customfield/validator.go:28-49 | the call on an output returns the same map if and only if every default that was filled in validates to itself |
| `CustomFields.BadDefaultIsRefused` | internal/core/domain/customfield/validator.go:29-40 | a number field with a text as default: its output is refused when it is validated again |
| `CustomFields.IntegerDefaultChanges` | internal/core/domain/customfield/validator.go:29-40 | a number field with an integer as default: validating its output again changes it to a float |

## Left out

- HTTP, gRPC, middleware, authentication, storage, webhooks and the record keeping of parties, products, tenants, attachments and audit queries: no invariant beyond the stored rows.
- PostgreSQL, pgx and the migrations: each query used is a table update; the foreign key on parents and the freshness of new identifiers are preconditions.
- int64 overflow and IEEE-754 rounding: integers are unbounded and float64 is `real`; the 8-decimal storage of conversion factors and the 18-digit bound of stored quantities are not modelled.
- Text outside ASCII: case mapping and trimming are modelled on ASCII.
- Concurrency of organization updates, of document transitions and of several outbox workers: calls are serialized, because nothing is locked between their reads and writes.
- `RateLimit.InMemoryLimiter.Allow`: an atomic step; the code reads the clock before it locks the bucket.
- `RateLimit.InMemoryLimiter.PurgeStale`: an atomic step; the code deletes a stale bucket after unlocking it.
- `SequenceStore.Store.AcquireNextNumber`: one undisturbed call; interleaved calls are the step relation of `SequenceEngine`, where the row is a value, not an object.
- Updating a sequence other than (de)activating it: numbers are not unique across a change of policy, template or padding.
- `Outbox.OutboxWorker.ProcessBatch`: the fetch is any answer the query allows, so ties in `created_at` are in any order; a mark that reports an error is taken as not stored.
- `VaryingExtras.SecureNumbersAreUnique`: a sufficient condition on the template only; other templates may be unique for the values that happen to be passed.
- `AnyTemplate.AlwaysOrderFreeIff`: leaves out extras under built-in names, which ill-formed templates can reach through prefix and suffix.
- `DocumentNumbering.DocumentsGapFreeIff`: serial calls; the sequence exists from the start of the run and keeps its policy.
- `NumberOrder.OrderFreeIff`: prefix, suffix and keys are brace-free and extra values well-formed; `NumberOrder.OrderFreeIffTexts` also leaves out SEQ keys beyond `fmt`'s width limit.
- `OrganizationTree.BuildTree`: requires unique identifiers, which the primary key guarantees; with repeated identifiers the recursion need not end.
- `CustomFields.RevalidationIff`: stated for definitions with distinct codes, as is `CustomFields.OutputConforms`.
- `CustomFields.ValidateField`: regular expressions and date parsing are parameters.
- `DocumentLifecycle.DocumentUsecase.CreateDocument`: the made-up number is a parameter; payloads, notes, dates and metadata are omitted; outbox and audit repositories are present.
- `ModuleRegistry.Registry`: listing, permissions, routes and subscriptions of modules.
- Polling, triggering and the timers of the outbox worker and the limiter's cleanup loop.
