# OpenNDX core: a verified model

OpenNDX lets a consumer application query personal data held by many providers through one GraphQL schema. The
orchestration engine (OE) splits a consumer query into one operation per provider and argument list, asks the policy
decision point (PDP) and the consent engine (CE) whether the data may be read, calls the providers concurrently and
merges their answers. This project models the parts of that path where mistakes are easy and expensive, and proves what
they promise.

- **Normalization** (`Document`, `Collection`, `Normalize`, `Outline`, `Builder`). A validated query is turned into a
  tree of fields. The code merges the selection sets of a response key one after the other, each with its own visited
  fragments; the GraphQL specification collects once over their concatenation. The two are proved equal, errors
  included, for every acyclic fragment graph. `Outline` says what the tree holds straight from the query: the ways
  through kept selections and applying fragments that lead to each response key.
- **Planning** (`Fields`, `Paths`, `Strings`, `Sequences`, `Operation`, `Arguments`, `Supplies`, `Selection`, `Plan`,
  `Planner`, `Printing`). Fields are grouped into provider operations by schema and canonical argument list, and printed
  as a selection tree with variables. `Supplies` says which arguments a provider has to be given for a field, from the
  mappings and the field's own ancestors in the query; planning is proved to give these. `Planner` is the code's own
  imperative form, proved equal to the functions in `Plan`.
- **Merging** (`Json`, `Merge`, `Merger`, `Nulls`, `Reports`). Answers are reassembled into the consumer's shape with
  null propagation, and every provider error is reported where it belongs. `Merger` is the imperative form.
- **Meaning** (`Reference`, `Federation`, `Requests`, `Readability`, `Meaning`, `Exactness`, `Provenance`,
  `Execution`, `Federate`, `Fidelity`, `Limits`). `Reference` executes the query directly, field by field, against the
  providers' full data, with the arguments of `Supplies`, knowing nothing of plans. Planning, concurrent execution in
  any order and merging together give exactly its data for every operation in which no fetch requests a path below
  another and every object list is asked for. `Readability` says when answers can be read where merging reads,
  `Fidelity` when one read is faithful, and `Exactness` that outside these operations some provider's data is misread,
  as long as object lists and fields without a source are nullable. `Provenance` traces every leaf of a response to a
  requested path, and `Limits` exhibits a list that is lost, a null that hides such a loss, and a leaf that the policy
  check never sees.
- **Consent engine** (`Consent`, `ConsentService`, `ConsentEngine`, `ConsentRaces`, `ConsentAlone`,
  `ConsentGuarantees`, `ConsentAnomalies`). Once as atomic calls over the table, with a class in the service's form;
  once with every load, clock reading and write of every kind of call interleaved. `ConsentAlone` joins the two: a call
  that nobody interrupts does what the atomic call does. Two concrete runs show that an interleaved engine can lose a
  confirmed approval and can leave an active record that is not the latest; `ConsentGuarantees` says exactly when.
- **Policy decision point** (`Policy`, `Decisions`, `Reconciliation`, `AllowLists`). The per-field decision, the
  reconciliation of a schema's rows, row-locked grants and revocations, and what these make of later decisions.
- **Access gate** (`Gate`, `GateRaces`). OE, PDP and CE joined: the exact condition under which providers are called,
  and what is left of it when the CE's calls interleave.
- **Onboarding and signing keys** (`Onboarding`, `KeyCache`). The create-application saga and the double-checked key
  cache.

Modelling conventions. Consumer fields, which the code compares by pointer, are named by their response path, which
normalization makes unique (`Normalize.BuildWellShaped`, `Fields.PathsUnique`); fetches are named by their key. The
parser's evaluation of written values and `json.Marshal` are function parameters; a marshalled value is taken to hold
no NUL character and to determine the value, and configured names to hold no NUL. A `rank` decreasing along fragment
spreads says that fragments form no cycle, as query validation guarantees. The query type is named `Query`. Clock
readings are parameters or steps. Errors keep their code and path, not their text. Times are integers in seconds.
Table rows are maps from ids; a single SQL statement is one atomic step, and a map write in `execute` is one atomic
step, the one outside the mutex included. GORM's own upkeep of `updated_at` on whole-row writes is not part of this
model: such a write keeps the loaded value.

Where the code and its comments differ, the model follows the code: the comment on consent creation takes the latest
record to be the active one, which holds for calls one at a time (`ConsentService.RunsStaySound`) and for interleaved
ones exactly as long as no record is inserted that was built before another of its pair
(`ConsentGuarantees.ActiveStaysLatestIff`).

## Model

| member | source | states |
|---|---|---|
| `Federate.FederatedQueryIsExecuted` | internal/oe/federator/federator.go:52-116 | A federated query's data is what the specification's normalization and direct execution against the providers' own data give, each provider being given the arguments that the query carries at the field or its ancestors, in whatever order calls finish; it holds no forbidden null, and missing data comes with an error |
| `Federate.RootNormalized` | internal/oe/federator/operation/operation.go:65-94 | Normalizing the root selection set gives what the specification says, in a well-shaped tree that holds just what the query selects |
| `Normalize.BuildIsSpecified` | internal/oe/federator/operation/operation.go:165-234 | Merging selection sets one after the other, each with fresh visited fragments, gives the same fields in the same order, and the same error, as one CollectFields over their concatenation, whatever sets are repeated |
| `Normalize.CollectEachIsCollect` | internal/oe/federator/operation/operation.go:167-173 | Collecting sets separately and collecting over their concatenation give the same items up to repetitions |
| `Outline.NormalizedIsOutlined` | internal/oe/federator/operation/operation.go:165-321 | A normalized set has one field for each alias, or name without one, that some way leads to through kept selections and fragments whose condition the object type satisfies; its definition, arguments and source are those of a selected field, its selections what the merged sub-selections ask for |
| `Collection.CollectIsFull` | internal/oe/federator/operation/operation.go:236-290 | Skipping visited fragments loses nothing but repetitions, whatever was collected before |
| `Collection.Collect` | internal/oe/federator/operation/operation.go:239-290 | Collection ends on every fragment graph, cyclic ones included, and only adds to the visited fragments |
| `Collection.CollectedIffRouted` | internal/oe/federator/operation/operation.go:239-290 | Exactly the fields are collected that some way through included selections and applying fragments leads to |
| `Document.IncludedIff` | internal/oe/federator/operation/operation.go:292-321 | The first "if" argument of the first @skip, evaluated, leaves the selection out when true; otherwise that of the first @include keeps it when true and leaves it out when false; without either it is kept; a condition that is missing or not a boolean is an error, unless @skip has settled it |
| `Normalize.BuildWellShaped` | internal/oe/federator/operation/operation.go:165-234 | Response keys are unique at every level and every path is the parent's path and the response key |
| `Normalize.BuildBound` | internal/oe/federator/operation/operation.go:188-234 | Every field carries the field names from the root, its @sourceInfo on its object type, and selections on the object type its definition names |
| `Fields.PathsUnique` | internal/oe/federator/operation/operation.go:41-42 | In a well-shaped tree a path names one field |
| `Document.ArgumentPresent` | internal/oe/federator/operation/operation.go:331-364 | A field has exactly the arguments that the query gives a value, first of that name, or the schema a default, with the evaluated values; an unprovided variable counts as left out, and coercion fails exactly when such a value cannot be evaluated |
| `Builder.CollectFields` | internal/oe/federator/operation/operation.go:239-290 | Adds exactly the collected fields to the groups and the followed fragments to the visited set, or stops at the first error |
| `Builder.FieldGroups.Add` | internal/oe/federator/operation/operation.go:366-378 | Keys stay in first-seen order and every group holds its key's fields in order |
| `Builder.GroupFields` | internal/oe/federator/operation/operation.go:167-173 | Groups hold the fields of all sets, each collected with no fragment visited, or the first error is returned |
| `Builder.BuildFields` | internal/oe/federator/operation/operation.go:165-184 | The imperative normalization computes `Build`, to which the specification is proved equal |
| `Builder.BuildOne` | internal/oe/federator/operation/operation.go:186-234 | One response key: definition, arguments, source and the merged sub-selections, with the code's errors in its order |
| `Builder.CoercedArguments` | internal/oe/federator/operation/operation.go:334-354 | The loop computes the coerced argument values |
| `Operation.BindingsAreOccurrences` | internal/oe/federator/operation/operation.go:96-118 | Bindings are exactly the configured mappings at fields of the operation whose schema path and argument they name |
| `Operation.BindingsInOrder` | internal/oe/federator/operation/operation.go:96-118 | Bindings come in mapping order and then query order, each with the value the query gives there, and no occurrence is left out |
| `Operation.DataOwnerID` | internal/oe/federator/operation/operation.go:120-145 | The owner is found exactly when all non-empty strings given for the argument agree; otherwise the error says whether there was none or several |
| `Operation.VisitOwner` | internal/oe/federator/operation/operation.go:127-157 | The depth-first visit accounts for every field's value |
| `Arguments.ArgumentsAreCanonical` | internal/oe/federator/plan.go:227-264 | A field's argument list is strictly sorted by path and name and holds, for each target, the first applicable binding and nothing else |
| `Supplies.ArgumentsAreSupplied` | internal/oe/federator/plan.go:227-282 | A field's provider is given, in order, what the first place for each target gives: a mapping for the field's schema whose target leads to its provider field, at the field or one of its ancestors, never at a sibling under another alias; planning fails exactly when one has no type |
| `Supplies.OnePlace` | internal/oe/federator/plan.go:236-241 | In a normalized operation a mapping has at most one place on the way to a field, so an alias cannot supply another |
| `Arguments.SortedIsUnique` | internal/oe/federator/plan.go:257-262 | A strictly sorted list is determined by its members, so the order of sorting steps is irrelevant |
| `Arguments.KeyCanonical` | internal/oe/federator/plan.go:203-211 | For NUL-free components two fetch keys are equal exactly when schema and argument lists are |
| `Fields.WrittenInjective` | internal/oe/federator/plan.go:210 | A type reference can be read back from its text |
| `Fields.BaseNameWritten` | internal/oe/federator/operation/operation.go:222 | The named type is the text of the type reference without brackets and exclamation marks |
| `Plan.OperationsAreShared` | internal/oe/federator/plan.go:194-225 | Two root-sourced fields share a fetch exactly when they have the same schema and argument list |
| `Plan.PlanServesEveryEntry` | internal/oe/federator/plan.go:169-180 | Every directly read field leads to an existing fetch for its schema and arguments that requests its paths, so every lookup merging makes is defined |
| `Plan.EntriesOrdered` | internal/oe/federator/plan.go:140-192 | Directly read fields are planned in query order, each at its own place in the tree |
| `Paths.BelowMeansProperPrefix` | internal/oe/federator/plan.go:372-385 | The textual test for lying below a path is the proper-prefix test on segments |
| `Paths.PathPrefixMeansPrefix` | internal/oe/federator/plan.go:382-385 | The textual ancestor test is the prefix test on segments, so "ab" is no ancestor of "abc.d" |
| `Paths.RelativePathSegments` | internal/oe/federator/plan.go:372-380 | Reading relative to a list drops the list's segments, or keeps only the last segment of a field declared elsewhere |
| `Json.ValueAtConcat` | internal/oe/federator/merge.go:220-242 | Reading a path in two legs is reading it in one, through lists on the way |
| `Planner.BuildPlan` | internal/oe/federator/plan.go:69-86 | The mutating planner yields exactly the plan that `PlanFor` describes, printed, or its error |
| `Planner.Planner.FetchFor` | internal/oe/federator/plan.go:194-225 | The fetch found or created is the one for the field's key, and nothing else in the plan changes |
| `Planner.Planner.Arguments` | internal/oe/federator/plan.go:231-264 | The loop over bindings with its seen map computes the canonical argument list |
| `Planner.Planner.Fields` | internal/oe/federator/plan.go:140-192 | Planning a selection set inside or outside a provider list extends the plan as its entries and paths say |
| `Planner.Fetch.AddField` | internal/oe/federator/plan.go:284-294 | A path is requested once and the tree is the tree of the requested paths |
| `Planner.Fetch.Print` | internal/oe/federator/plan.go:296-330 | Printing attaches every argument through its own variable |
| `Planner.FreshName` | internal/oe/federator/plan.go:304-307 | The suffix loop ends with the first name not taken |
| `Planner.CollectRequired` | internal/oe/federator/plan.go:116-131 | The loop collects everything requested, once, in order |
| `Selection.TreeSelects` | internal/oe/federator/plan.go:284-294 | The tree selects the requested paths and their ancestors, nothing else |
| `Selection.LeafIsRequested` | internal/oe/federator/plan.go:284-294 | Every leaf of the tree is a requested path |
| `Selection.RequestedIsLeaf` | internal/oe/federator/plan.go:284-294 | When no requested path lies below another, every requested path is a leaf |
| `Selection.ProjectRootCovers` | internal/oe/federator/plan.go:343-370 | Data cut down to an operation's tree holds what the tree selects, nothing if it selects nothing |
| `Selection.ReadReached` | internal/oe/federator/merge.go:72-73 | What is read from an answer's part, wherever the selection leads or has a leaf above, is what the provider holds there, as far as it is selected |
| `Selection.RootReachesIff` | internal/oe/federator/plan.go:284-294 | An operation leads exactly to the positions something is asked for at, below, or as a whole above, and to a leaf exactly where nothing is asked for below |
| `Printing.FreeName` | internal/oe/federator/plan.go:304-307 | The suffix loop ends for every set of taken names, by counting the names each failed try uses up |
| `Printing.FreeNameIsFirst` | internal/oe/federator/plan.go:304-307 | The name is the first candidate that is not taken |
| `Printing.DecimalInjective` | internal/oe/federator/plan.go:306 | Different suffix numbers give different names |
| `Printing.VariablesDistinct` | internal/oe/federator/plan.go:303-312 | Variable names are pairwise distinct and the i-th variable carries the i-th argument's type and value |
| `Printing.ArgumentsResolved` | internal/oe/federator/plan.go:303-319 | Replacing every variable by the value sent under its name gives, at every provider field, exactly the names and values of the arguments for that path, in order |
| `Printing.ArgumentsAttached` | internal/oe/federator/plan.go:314-318 | Every provider field carries exactly the arguments whose path leads to it, each through its own variable |
| `Printing.PrintedSelects` | internal/oe/federator/plan.go:314-318 | Attaching arguments selects the fields they are attached to and nothing else |
| `Printing.PrintingAddsNoSelection` | internal/oe/federator/plan.go:314-318 | When arguments lead to requested fields, printing adds no selection and printed leaves are requested paths |
| `Printing.LeavesRequestedIffLead` | internal/oe/federator/plan.go:300-330 | Every leaf of the printed operation is a requested path exactly when every argument leads to a requested path |
| `Requests.RequiredIsRequested` | internal/oe/federator/plan.go:116-131 | The fields sent to the PDP are exactly what the fetches request, without repetition |
| `Requests.PlanRequests` | internal/oe/federator/plan.go:150-192 | A fetch requests, once each, exactly paths its consumer fields need; with something sourced below every list, its arguments lead to requested paths |
| `Requests.PlannedAbove` | internal/oe/federator/plan.go:227-264 | A planned fetch attaches its arguments above everything it requests, so they lead to requested paths unless it requests nothing and has arguments |
| `Requests.PrintedLeavesAreChecked` | internal/oe/federator/federator.go:98-114 | A fetch's printed leaves are its requested paths exactly when its arguments lead to requested paths, and then the policy check is asked about each of them |
| `Merger.MergeResults` | internal/oe/federator/merge.go:20-28 | The one-pass merger with its error list computes the merged response, whose errors end with those of all answered fetches, in plan order, each in its place |
| `Merger.Merger.MembersOf` | internal/oe/federator/merge.go:44-56 | The object loop completes its fields in order and stops at one that must propagate |
| `Merger.Merger.ValueOf` | internal/oe/federator/merge.go:58-99 | One field: type name, sourced value, list, object or unsourced leaf, with its errors |
| `Merger.Merger.ItemsOf` | internal/oe/federator/merge.go:112-131 | The item loop completes items in order, or nulls the list at the first that must propagate |
| `Merger.Merger.CompleteValue` | internal/oe/federator/merge.go:133-146 | The value stays; it fails exactly when it is a null in a non-null field, and that is reported exactly when it had not been |
| `Merger.Merger.PassOnErrors` | internal/oe/federator/merge.go:148-169 | The errors of every answered fetch are passed on in plan order |
| `Reports.PassedOn` | internal/oe/federator/merge.go:148-199 | The errors of an answer are passed on once each, in order, each placed at the first consumer field whose provider path is above or below the names its path begins with, and without a path if there is none |
| `Reports.EveryErrorIsPassedOn` | internal/oe/federator/merge.go:20-28 | A response ends with all errors of all answers, at counted positions, and nothing else |
| `Nulls.NullPropagationExact` | internal/oe/federator/merge.go:20-146 | No non-null field or object-list item is null; a value is null exactly where the provider's is, nothing can be read, or a non-null part is; every null leaf, object, list and list item is the provider's own or has an error at or below it; root data is null exactly when a non-null root field is, with an error |
| `Nulls.ObjectSound` | internal/oe/federator/merge.go:44-56 | Every error of an object lies at or below it; a propagating object has one, a completed one is permitted and explained |
| `Nulls.ItemsSound` | internal/oe/federator/merge.go:112-131 | A completed item is null only if the provider's was or an error lies below it, and a list that is cut short has an error below it |
| `Meaning.FederationPreservesMeaning` | internal/oe/federator/merge.go:46-131 | When every fetch is answered with what the provider holds where the operation selects it, or fails, the merged data is that of direct execution |
| `Meaning.ReadingLists` | internal/oe/federator/plan.go:150-192 | For that it is enough that every sourced object list has a sourced leaf below it and no fetch requests a path below another |
| `Meaning.OnlySelectedIsRead` | internal/oe/federator/merge.go:70-86 | Cutting every answer down to what its operation selects changes nothing in the merged data |
| `Exactness.PreservesIffPlannable` | internal/oe/federator/plan.go:150-192 | For an operation whose object lists and unsourced leaves are nullable, whatever else is non-null, merged data is that of direct execution, for all providers and answers, exactly when no fetch requests a path below another and every object list is asked for |
| `Limits.ItemsAreMisread` | internal/oe/federator/plan.go:176-177 | A list with only `__typename` below it is within that class and outside the condition: its operation does not keep its meaning |
| `Limits.NullHidesMisreading` | internal/oe/federator/merge.go:94-98 | Beside a non-null leaf without a source the same list is lost unseen: there is no data either way, so that the condition is not necessary there |
| `Provenance.OnlyRequestedIsShown` | internal/oe/federator/merge.go:70-86 | In every plan and for all answers, each leaf of the response is what its fetch was answered at one of its requested paths, at the leaf's item indices, or null |
| `Readability.ReadableIffRequested` | internal/oe/federator/plan.go:150-192 | Everything merging reads is where its printed operation leads exactly when no fetch requests a path below another and something is asked for of every object list |
| `Federation.SetsAgree` | internal/oe/federator/merge.go:46-99 | Merging and direct execution agree on every selection set, inside nested list scopes too |
| `Federation.ItemsAgree` | internal/oe/federator/merge.go:112-131 | They agree on every item of an object list |
| `Federation.TopRaw` | internal/oe/federator/merge.go:76-81 | What merging reads for a root-sourced field is what the provider holds there, as far as the operation selects it |
| `Federation.ScopedRaw` | internal/oe/federator/merge.go:72-73 | What merging reads relative to a list item is what the provider's item holds there, as far as the operation selects it |
| `Fidelity.FaithfulIffPrefixFree` | internal/oe/federator/plan.go:284-330 | Every requested path reads the same from an answer to the printed operation as from the data, for all data, exactly when nothing is asked for below a requested path; with arguments attached as planning does, when no requested path lies below another |
| `Fidelity.ListShownIffRequested` | internal/oe/federator/plan.go:174-177 | A list is seen item by item in an answer to the printed operation, for all data, exactly when something is requested or an argument attached at or below it, or a whole value above it is sent |
| `Limits.TypenameOnlyListIsLost` | internal/oe/federator/plan.go:176-177 | In a query with an owner and a list with only `__typename` below it, the provider's faithful answer shows nothing of the list, and the consumer reads null where direct execution gives items |
| `Limits.ArgumentOnlyListIsUnchecked` | internal/oe/federator/plan.go:300-330 | If that list carries a mapped argument, the printed operation has it as a leaf though the policy check, which passes, is not asked about it and would deny it |
| `Execution.ResultsAreTheOutcomes` | internal/oe/federator/execute.go:21-60 | In every order of launching, answering and recording, the joined results hold for each fetch exactly the one answer its own provider gave, or a failure if none is configured |
| `Execution.OrderDoesNotMatter` | internal/oe/federator/execute.go:21-60 | Two runs in which every provider gives the same answer leave the same results |
| `Execution.RunsEnd` | internal/oe/federator/execute.go:34-59 | Every step brings the join nearer and an unfinished execution has a step to take |
| `Execution.ConcurrentFederationPreservesMeaning` | internal/oe/federator/execute.go:21-60 | The merged data is that of direct execution whatever order provider calls finish in, missing providers included |
| `Consent.FieldsEqual` | internal/ce/services/consent_service.go:444-462 | Field lists are equal exactly when they have the same fields in the same order |
| `Consent.GrantSecondsIsIso` | internal/ce/services/consent_service.go:412-430 | Every accepted grant duration is read as the ISO 8601 duration it is, any other text as an hour |
| `Consent.ValidIffWellFormed` | internal/ce/services/consent_service.go:465-508 | A request is valid unless it lacks an application, an owner or fields, has a field without name or schema, or asks for a duration that is not offered, an empty one being none |
| `ConsentService.RunsStaySound` | internal/ce/services/consent_service.go:34-131 | In every run of atomic calls with strictly increasing creation times each pair has at most one active record, the latest, and no insert hits the partial unique index |
| `ConsentService.AtMostOneActive` | internal/ce/services/consent_service.go:189-199 | The latest-record lookup finds the active record whenever there is one |
| `ConsentService.CreateKeepsSound` | internal/ce/services/consent_service.go:34-75 | Creation answers with an active record of the pair for exactly the requested fields, approved only if that grant was there and is unexpired, and changes no other pair |
| `ConsentService.CreationOnColumns` | internal/ce/services/consent_service.go:34-170 | On the columns: the answer is the latest record, unchanged with its deadline still to come, or a new one with the duration requested or an hour, and a pending deadline of an hour, or a day offline, which takes the place of the latest and changes no other |
| `ConsentService.ActKeepsSound` | internal/ce/services/consent_service.go:338-410 | Portal decisions keep active records the latest of their pair |
| `ConsentService.SweepKeepsSound` | internal/ce/services/consent_service.go:284-300 | So does bulk expiry |
| `ConsentEngine.Engine.Create` | internal/ce/services/consent_service.go:34-75 | Answers with an active record of the pair for the requested fields whose deadline column is not past; "approved" only if that grant, not past its end, was in the table, which is then unchanged; on a sound table it keeps the invariant and fails only on a malformed request |
| `ConsentService.ApprovedIffLatestHeld` | internal/ce/services/consent_service.go:34-75 | Whatever the table, creation is answered "approved" exactly when the pair's latest record is an approved consent to exactly the requested fields whose grant ends no earlier than now |
| `ConsentEngine.Engine.RevokeAndCreate` | internal/ce/services/consent_service.go:77-131 | The old record is revoked and the new one inserted, or nothing changes |
| `ConsentEngine.Engine.GetInternalView` | internal/ce/services/consent_service.go:172-211 | The record found is the one asked for or the latest of its pair, and is expired in the table and the view exactly when the clock is past its deadline column |
| `ConsentEngine.Engine.GetPortalView` | internal/ce/services/consent_service.go:213-241 | Only the owner's call reads a record, or expires it, then past its deadline column |
| `ConsentEngine.Engine.UpdateStatus` | internal/ce/services/consent_service.go:337-410 | Succeeds exactly for the owner's record in the status decided on whose deadline is not past, which moves to the decided status, an approval's grant ending its duration from now; a failing call changes nothing but the expiry of a record past its deadline, and no call changes another record |
| `ConsentEngine.Engine.ExpireStale` | internal/ce/services/consent_service.go:284-300 | Both bulk updates together expire exactly the owner's active records past their deadlines |
| `ConsentEngine.Engine.FindLatest` | internal/ce/services/consent_service.go:189-199 | Returns a record of the pair with the latest creation time, or that there is none |
| `ConsentRaces.NoConsentIsResurrected` | internal/ce/services/consent_service.go:78-131 | In every interleaving of all writers a record only moves from pending to approved to an end, and keeps its request |
| `ConsentAlone.AloneIsAtomic` | internal/ce/services/consent_service.go:34-442 | The steps of any call, taken one after the other, leave the table and give the answer of the atomic call |
| `ConsentAlone.UninterruptedIsAtomic` | internal/ce/services/consent_service.go:34-442 | So in every interleaving: a call whose steps nobody interrupts does what the atomic call does |
| `ConsentRaces.CallsCanMove` | internal/ce/services/consent_service.go:34-442 | No call is ever stuck, whatever the others have left in the table |
| `ConsentRaces.OneTransitionLeaves` | internal/ce/services/consent_service.go:318-335 | At most one step of a run takes a record out of pending and at most one out of approved |
| `ConsentRaces.OneDecisionWins` | internal/ce/services/consent_service.go:397-409 | Of all calls deciding on the same status of a record at most one succeeds |
| `ConsentGuarantees.LosersChangeNothing` | internal/ce/services/consent_service.go:363-409 | In every interleaving a losing portal action has changed no row in any of its steps, other than by expiring a stale one, and answers with its wrong-status error once the record was found and the owner checked |
| `ConsentRaces.PortalCallsAreConditional` | internal/ce/services/consent_service.go:318-409 | One step of a portal call changes nothing, expires a record past its deadline, or decides on it and succeeds |
| `ConsentRaces.ApprovedInTime` | internal/ce/services/consent_service.go:361-442 | In every interleaving an approved record was decided within its pending timeout, its grant ends its duration later, at most a day and thirty days after creation |
| `ConsentRaces.AlwaysOneActive` | internal/ce/models/consent.go:10-24 | At every moment of every interleaving each pair has at most one active record |
| `ConsentRaces.EndedRecordsAreKept` | internal/ce/services/consent_service.go:203-207 | A record that has ended is only written by the two unconditional whole-row writes |
| `ConsentAnomalies.ApprovalCanBeLost` | internal/ce/services/consent_service.go:203-207 | A run in which a confirmed approval is overwritten by a stale whole-row write |
| `ConsentGuarantees.ApprovalEndsIff` | internal/ce/services/consent_service.go:78-131 | A step ends an approval exactly when it is the owner's revocation, a replacement, an expiry, the clock then past the grant's end, or the write-back of a call that loaded the record while pending; each leaves its own status |
| `ConsentGuarantees.HowApprovalsEnd` | internal/ce/services/consent_service.go:203-207 | Every approval that ends in a run is revoked, replaced or expired past its grant's end, unless it is overwritten by such a write-back |
| `ConsentGuarantees.ApprovalSafeIff` | internal/ce/services/consent_service.go:189-207 | An approval cannot be overwritten in any continuation exactly when no read for the orchestration engine holds the record as it was while pending |
| `ConsentAnomalies.ActiveCanBeOlder` | internal/ce/services/consent_service.go:61-70 | A run of concurrent creations after which the active record is not the latest |
| `ConsentGuarantees.StaysLatestIff` | internal/ce/services/consent_service.go:61-131 | A step keeps active records the latest of their pairs exactly when it does not insert a record built before another of its pair |
| `ConsentGuarantees.ActiveStaysLatestIff` | internal/ce/models/consent.go:10-13 | In a run the active record is the latest throughout exactly when no step does |
| `ConsentGuarantees.ApprovedAnswersRest` | internal/ce/services/consent_service.go:40-54 | In every interleaving a creation answered "approved" had loaded, as the pair's latest record, an approved consent to exactly the requested fields and found it unexpired |
| `Policy.GetPolicyDecision` | internal/pdp/services/policy_metadata_service.go:299-386 | Every required field is decided on the row found for it and listed by outcome, in order; a field without a row fails the request |
| `Decisions.DecisionsAreTheEngines` | internal/pdp/services/policy_metadata_service.go:318-361 | A field's decision is the engine's, asked about the application, the row's own columns, the time, and the end of the application's grant exactly if the row's allow-list has one; only a field without a row has none |
| `Decisions.ListedOnColumns` | internal/pdp/services/policy_metadata_service.go:344-373 | What is told of a listed field is its row: name, schema, owner, display name and description |
| `Decisions.DecisionsSeeGrants` | internal/pdp/services/policy_metadata_service.go:231-349 | After a successful grant the decision on each of its fields sees the grant's end, and after a successful revocation none |
| `Decisions.DecisionsSeeTheLastGrant` | internal/pdp/services/policy_metadata_service.go:231-349 | In every interleaving the last transaction of the application that went through on a field decides what later decisions on it see |
| `Policy.ListedIffDecided` | internal/pdp/services/policy_metadata_service.go:365-373 | The list of an outcome holds exactly the fields decided with it |
| `Policy.AuthorizedIffDecided` | internal/pdp/services/policy_metadata_service.go:376-383 | Authorized and unexpired says that every field was decided allowed or consent-required |
| `Policy.OwnRowIffNoClash` | internal/pdp/services/policy_metadata_service.go:318-335 | A field is decided on its own row, in whatever order rows are fetched, exactly when no other row of the requested schemas joins to the same key |
| `Policy.ColonFreeNeverClashes` | internal/pdp/services/policy_metadata_service.go:318-335 | Schema ids without colons never clash |
| `Policy.ColonsClash` | internal/pdp/services/policy_metadata_service.go:318-335 | Schema "a" with field "b:c" is decided on the row of schema "a:b" with field "c" |
| `Reconciliation.ReconciliationIsExact` | internal/pdp/services/policy_metadata_service.go:67-171 | The commit succeeds exactly when no field new to the schema is requested twice, and then leaves exactly the requested fields for the schema with the metadata last requested, retained ones with id, creation time and allow-list, concurrent grants included, new ones without grants, all stamped with the time, other schemas unchanged |
| `Reconciliation.PolicyStore.ReadSchema` | internal/pdp/services/policy_metadata_service.go:67-79 | Reading the schema's rows gives each field name its one row |
| `Reconciliation.PolicyStore.Plan` | internal/pdp/services/policy_metadata_service.go:81-132 | The loops over rows and records plan the deletions, creations and updates |
| `Reconciliation.PolicyStore.Commit` | internal/pdp/services/policy_metadata_service.go:134-171 | The transaction writes all of a change, or nothing when a created row breaks the unique index |
| `AllowLists.TransactionsSerialize` | internal/pdp/services/policy_metadata_service.go:231-290 | In every interleaving of row-locked grants and revocations the allow-lists are those of a serial order, the commit order, and each transaction succeeds or fails as it would there |
| `AllowLists.NoDeadlock` | internal/pdp/services/policy_metadata_service.go:235-239 | Waiting for row locks never goes in a circle |
| `AllowLists.Progress` | internal/pdp/services/policy_metadata_service.go:235-239 | While a transaction is open, some open transaction can take its next lock or commit |
| `AllowLists.AllowListStore.UpdateAllowList` | internal/pdp/services/policy_metadata_service.go:231-290 | A grant enters every requested field's list, or none if one has no row |
| `AllowLists.AllowListStore.RevokeAllowListEntry` | internal/pdp/services/policy_metadata_service.go:489-529 | A revocation removes exactly the application's entry, or fails without effect |
| `AllowLists.AloneChangesOneApp` | internal/pdp/services/policy_metadata_service.go:261-279 | A transaction changes one application's entry of its own fields and adds or refreshes without removing others |
| `Gate.FederateQuery` | internal/oe/federator/federator.go:87-116 | Providers are called only if the query normalizes, has one owner, has a plan with an operation, the PDP (if configured) allows it, and the CE holds the consent it requires, whatever interleaved calls left in its table; they are called if the CE's table leaves no other record to find; and each refusal names the step that failed |
| `Gate.AuthorizeAccess` | internal/oe/federator/access.go:16-29 | Access is granted only if there is no PDP, or it allows every field and the consent it requires is held; it is granted if that consent is all there is to find; a refusal is that of the failing check |
| `Gate.CheckPolicy` | internal/oe/federator/access.go:43-96 | The policy check passes exactly when there is something to decide, for a named application, and every field is decided allowed or consent-required; a refusal says whether a field was denied or expired, or the PDP failed or was silent |
| `Gate.CheckConsent` | internal/oe/federator/access.go:115-185 | The consent check passes only if the owner's latest record for the application is an approved consent to exactly those fields whose grant is not past, and then changes nothing; it passes if every latest record is; a refusal for want of approval leaves a pending record for just those fields |
| `Gate.ConsentAskedFor` | internal/oe/federator/access.go:136-163 | Consent is asked of the owner for the application and exactly the fields decided to need it, as their policy rows name them, a citizen being the owner by default |
| `Gate.ShownIsSure` | internal/ce/services/consent_service.go:189-199 | With different creation times the two conditions of the consent check are one, and for calls one at a time any held consent meets them |
| `Gate.ClearedIsSure` | internal/oe/federator/access.go:16-29 | So the gate opens exactly on its condition whenever records of a pair were created at different times |
| `Gate.EveryRequestIsDecided` | internal/oe/federator/federator.go:104-114 | Every path a provider operation requests was decided on its own policy row, unless another row joins to its key, and a consent that is needed names it |
| `Gate.EverySentLeafIsDecided` | internal/oe/federator/federator.go:98-114 | When a query is cleared and a fetch's arguments lead to requested paths, so was every leaf of its printed operation |
| `GateRaces.CallsRestOnConsent` | internal/oe/federator/access.go:115-185 | In every interleaving of the CE's calls, providers are called for fields that need consent only if at some moment of the creation call the owner's latest record for the application was an approved consent to exactly those fields whose grant had not ended by the clock |
| `Onboarding.Portal.CreateApplication` | internal/pb/application/service.go:36-171 | Success means client, row and grant all exist; a failure restores all three exactly when no compensation failed and no client was left without an id; a client that existed before is never touched |
| `Onboarding.Portal.CreateClient` | internal/pb/idp/thunderid/client.go:115-180 | The inner saga: a usable client with its role, or the clients as before exactly when the cleanup succeeded and the id was known |
| `Onboarding.Portal.UpdateSubmission` | internal/pb/application/service.go:442-469 | What is stored for every outcome: a rejection as rejected, a failed approval as pending again; after an approval the submission is approved exactly when its application was created or taking the approval back failed |
| `KeyCache.AnswersAreFresh` | internal/authn/token_parser.go:258-298 | A forced refresh returns a set installed after its snapshot; an unforced call one it fetched, or one whose own fetch lies less than the time-to-live before a moment during the call |
| `KeyCache.NoKeysOnlyByFailure` | internal/authn/token_parser.go:284-292 | A call ends without keys only through its own failed fetch, which leaves keys and times as they were |
| `KeyCache.CacheIsUsed` | internal/authn/token_parser.go:258-282 | A call that finds a set it may use answers with the last one installed, before or after waiting for the lock; only one that finds none fetches |
| `KeyCache.SetsAreDated` | internal/authn/token_parser.go:276-297 | A set that arrives is installed under the time read before its request went out, with the lock held, and only then do the installed sets change |
| `KeyCache.Progress` | internal/authn/token_parser.go:258-298 | While a call is under way, it or the one holding the lock can go on |
| `KeyCache.LastFetchMovesForward` | internal/authn/token_parser.go:276-297 | The time of the last fetch never moves back, and the history of installed sets only grows |
| `KeyCache.OneFetchAtATime` | internal/authn/token_parser.go:273-297 | At most one call fetches at a time |

## Left out

- HTTP handlers and clients, configuration, logging, audit and metrics: plumbing without a property of its own, except
  that the PDP's handler refuses a request without an application or fields (internal/pdp/handler/handler.go:161-168).
- The choice of an operation by name, the refusal of mutations and the coercion of request variables, done by the
  GraphQL library before normalization; parsing and validation of the query.
- The text of printed operations: the selection tree and the variables are modelled, their formatting and the operation
  name are not.
- The selection tree's in-place pointer walk: the tree is a value held by the class `Fetch`, so aliasing of its nodes is
  not captured.
- `parseType` and `targetArgTypes`: a mapping carries its parsed type.
- Failing `json.Marshal`: marshalling is a total function.
- Error texts: code, path and presence are kept.
- Meaning.FederationPreservesMeaning: assumes that no fetch requests a path below another and that something is asked
  for of every object list. `Exactness` proves these necessary when object lists and leaves without a source are
  nullable. Otherwise they are stated as sufficient only: a non-null leaf without a source hides a misreading
  (`Limits.NullHidesMisreading`), and nested non-null object lists may.
- Leaf lists are completed as a whole, as in the code: their items are not checked for null.
- `ListConsentsByOwner`: only its bulk expiry is modelled, not the filter, order and paging of the result.
- ConsentEngine.Engine.Create: reads the clock once; `ConsentRaces` reads it as often as the code does.
- Context cancellation and database errors, except where a step is made to fail in `Onboarding`.
- Policy evaluation itself: an arbitrary function into the four outcomes, failures being denials.
- `PatchPolicyMetadata`, `DeletePolicyMetadata` and listing of policies: single-row or read-only calls.
- AllowLists.AllowListStore.UpdateAllowList: names rows by schema and field, so requests in which two pairs join to the
  same "schema:field" text are not captured; the duration check and date arithmetic are the caller's.
- Reconciliation.ReconciliationIsExact: deletion of rows between reading and writing is not part of it.
- `keyFunc`: the search for a key id and its single retry with a forced refresh; parsing of keys and signature checks.
- Updating applications, members, schemas and the SDL walk of the policy backend: simpler variants.
