# Accounts, eager loading and the audit gate

This project models three pieces of the repository and proves what they promise, for all inputs.

**Accounts and their queries** (`backend/ent/account*.go`). A row of the account table is scanned
and assigned to a node (`AccountSchema`, `AccountCodec`, `Graph`); `sqlAll` materialises the rows of
a query and then loads every requested edge with one query per edge (`EagerLoading`, `EagerUnique`,
`EagerGroups`, `LoadGroups`, `AccountQueries`). The loaders work as the source does: nodes and
neighbours are objects, the index maps and id lists are filled in loops, edges are appended in
place, and the inner map of the many-to-many loader is ranged over in an arbitrary order. They are
proved against per-row lookups and a nested-loop join, and the groups they load against the groups
that an edge traversal answers (`GroupTraversal`). The query builder itself is a tree of objects whose
slices are real Go slices, a header over a shared array with an `append` that writes in place
(`GoSlices`, `QueryBuilder`).

**Creating and updating accounts.** `createSpec`, the defaults and the checks (`AccountCodec`,
`AccountCreate`); bulk creation, a chain of nested mutators with one batch write at its end
(`BulkCreate`, `BulkCreateTheorems`); the edge changes a mutation gathers, the edge specs `sqlSave`
emits for them, and whole runs of edge calls (`EdgeDelta`, `EdgeRuns`). The update builder hands these
calls on to methods of the same names of `AccountMutation` (`backend/ent/mutation.go`, lines 4016-4063
and 5076-5249), and those are what is modelled; the rows below cite the builder. The two resets exist
on the mutation only.

**The audit exception gate** (`tools/check_pnpm_audit_exceptions.py`): the line-oriented exception
parser (`PythonText`, `ExceptionParser`, `ExceptionFiles`), the audit report (`AuditPayload`), the
decision (`AuditGate`), what does not change it (`GateStability`) and how much of a report it looks
at (`GateCoverage`).

## What the proofs brought up

Where the code does not do what one would expect, the model keeps the code and says exactly when the
two agree.

- Each load leaves its predicate on the child builder, so a second load through the same builder sees
  only what both loads asked for (`ChildQueries.ReloadIsComplete`, `EagerUnique.ReloadLookupIsComplete`).
- The order of an account's groups is the order in which the groups first appear in the whole stream,
  not among the account's own rows; `EagerGroups.AgreesPerAccountExactly` says for which streams the two
  agree, `EagerGroups.ScatteredStreamDisagrees` gives one for which they do not.
- Of nodes with the same id only the last one gets list children and groups (`EagerLoading.LoadList`,
  `LoadGroups.Load`).
- `First` and `Only` overwrite the limit of the builder they are called on (`QueryBuilder.LimitLeftBehind`).
- `Clone` drops modifiers such as row locks, at every level of the tree (`QueryBuilder.CloneIsExact`).
- The bulk builder ignores the error of `defaults`; `check` catches it, unless a hook sets the column
  before (`AccountCreate.IgnoredDefaultsErrorIsCaught`, `BulkCreateTheorems.IgnoredDefaultsErrorExactly`).
- A hook that turns the outcome into an error after the write breaks all-or-nothing; for hooks that do
  not swallow errors that is the only way (`BulkCreateTheorems.BulkSaveIsAllOrNothing`,
  `BulkCreateTheorems.OverturningBreaksAtomicity`).
- `ClearGroups` keeps the groups added before it, `ClearProxy` keeps a proxy set before it, and
  `ResetProxy` and `ResetProxyID` each forget only one of the two marks that `ClearProxy` leaves
  (`EdgeDelta.GatheringIsExact`, `EdgeRuns.ManyRunIsExact`, `EdgeRuns.OneRunIsExact`).
- An exception item whose first line has no colon makes the tool stop with a traceback
  (`ExceptionParser.ParsingRaisesExactly`); a dash on a line of its own does not start an item, so its
  fields go into the record before it (`ExceptionFiles.BareDashIsIgnored`).
- A vulnerability whose `via` names no advisory is counted by the metadata check but never asks for
  an exception (`GateCoverage.AcceptedEntriesAreExceptedExactly`, `GateCoverage.SilentReportsAreAccepted`).
- When records of one package and advisory differ in severity, only the first is compared with the
  exception, so their order may decide; `GateStability.RecordOrderIsIrrelevantExactly` says when it does.
- A `via` item whose title falls back to a number, as `source` may be, stops the tool when the titles
  are joined (`AuditPayload.ReadVia`).

## Model

| member | source | states |
|---|---|---|
| `AccountSchema.TypesAgree` | backend/ent/account.go:166-440 | `scanValues`, the assertions of `assignValues` and the types `createSpec` writes agree on every known column, and only those |
| `AccountSchema.FieldsFitTheStruct` | backend/ent/account.go:20-92 | every column is scanned into the type its struct field declares; NULL leaves nil, and a value is stored by address, exactly where the struct declares a pointer |
| `AccountCodec.ScanThenAssign` | backend/ent/account.go:166-440 | for every column list, with repeats and unknown names, assigning scanned values never reports a type mismatch; it fails exactly when a JSON column that is read does not decode, and otherwise gives exactly the projection of the row |
| `AccountCodec.AssignOneExactly` | backend/ent/account.go:191-440 | a scanned value is rejected if and only if its holder has another type than the declared field or its document does not decode; NULL resets the id to 0 and leaves any other field alone |
| `AccountCodec.UnknownColumnsAreSelected` | backend/ent/account.go:191-440 | each column that is no struct field is found under its own name with the value of its last occurrence, and nothing else is |
| `Graph.Node.AssignValues` | backend/ent/account.go:191-440 | the in-place loop computes the column-by-column assignment, stops at the first mismatch or undecodable document, and changes nothing when there are too few values |
| `Graph.AssignErrorIsFinal` | backend/ent/account.go:191-440 | after a rejected column the remaining columns change nothing |
| `Graph.KeysAreFields` | backend/ent/account_query.go:646-691 | the proxy is looked up by the `proxy_id` field and the owner by the `owner_user_id` field; a nil field looks up none |
| `AccountCodec.BuildCreateSpec` | backend/ent/account_create.go:755-960 | the node and the insert description built side by side are those of the mutation: inserted under any id, the description gives the row that holds the id, the two keys, every field that was set and NULL elsewhere, links the groups and takes over the usage logs; every field has the type its column is written with |
| `AccountCodec.EdgesReachNeighbours` | backend/ent/account_create.go:893-960 | the emitted edges link the account to exactly the groups of the mutation and give it exactly its usage logs |
| `AccountCodec.CreatedRowIsDescribed` | backend/ent/account_create.go:755-960 | the inserted row holds its id, `proxy_id` and `owner_user_id` as set, every field that was set, and NULL everywhere else |
| `AccountCodec.WriteReadRoundTrip` | backend/ent/account_create.go:755-960 | scanning the described row through any column list reproduces the created node on those columns, under the id the store assigned |
| `ChildQueries.ChildQuery.All` | backend/ent/usagelog_query.go:515-548 | the child query answers fresh, different nodes for exactly the matching rows, in order, as read through its selection |
| `ChildQueries.UnselectedKeyIsNotRead` | backend/ent/account_query.go:720-722 | why the loaders select the key: through a selection without it, and no other, a row that references a parent looks as if it referenced none |
| `ChildQueries.NarrowingKeepsChildren` | backend/ent/account_query.go:723-725 | restricting the child query to the asked keys loses no child of an asked key |
| `ChildQueries.ReloadIsComplete` | backend/ent/account_query.go:723-725 | after earlier loads through the same builder the children of a key are complete if and only if every load asked for the key, or it has none |
| `ChildQueries.ReloadLosesChild` | backend/ent/account_query.go:723-725 | the smallest case in which a child is lost |
| `ChildQueries.ChildrenPartition` | backend/ent/account_query.go:723-738 | different keys partition the rows that reference any of them: pooled, their children are exactly those rows, each once, and the numbers add up |
| `EagerLoading.ByIDFinds` | backend/ent/account_query.go:711-719 | the index map leads from every asked id, and no other, to the last node that has it |
| `EagerLoading.TroubleExactly` | backend/ent/authidentity_query.go:577-591 | a neighbour is attached under its own key; a nil key is reported on the edge whose key is nullable, and read as 0 on the others |
| `EagerLoading.AttachList` | backend/ent/account_query.go:730-738 | on any answer, the loop attaches each child under its key, in order, up to the first child with a nil or unknown key, and reports that one |
| `EagerLoading.LoadList` | backend/ent/account_query.go:710-769 | the batched load never fails and leaves each node that its id leads to with exactly its children, in order, whatever it held before, and a node whose id comes again later with none; under different ids the lists hold each answered child exactly once, and their lengths add up to the number of children |
| `EagerLoading.ListLoadIsComplete` | backend/ent/authidentity_query.go:559-591 | the steps of a list load, with a plain or a nullable foreign key, add up to the per-parent lookup |
| `EagerLoading.LoadPartitions` | backend/ent/account_query.go:710-769 | a list load under different ids leaves the answered children partitioned over the nodes |
| `EagerUnique.AskedIsExact` | backend/ent/account_query.go:646-661 | the asked ids are the non-nil keys, each once |
| `EagerUnique.CollectKeys` | backend/ent/account_query.go:646-661 | the collecting loop fills the id list and one bucket per key with exactly the nodes of that key |
| `EagerUnique.AttachUnique` | backend/ent/account_query.go:667-676 | on any answer, each neighbour goes to every node of its bucket until one that was not asked for, which is reported |
| `EagerUnique.LookupFinds` | backend/ent/account_query.go:667-676 | the per-row lookup finds a row with the id, and finds none only if there is none |
| `EagerUnique.NarrowedLookup` | backend/ent/account_query.go:662-666 | restricting the query to the asked ids keeps the lookup of those ids and loses every other |
| `EagerUnique.ReloadLookupIsComplete` | backend/ent/account_query.go:662-666 | after earlier loads the lookup of an id is right if and only if every load asked for it, or no row has it |
| `EagerUnique.LoadUnique` | backend/ent/account_query.go:646-709 | for every node list, repeated nodes and shared keys included: each node gets the neighbour that its own `proxy_id` (for the proxy) or `owner_user_id` (for the owner) field names, nodes of one key share one object, every other node is untouched, and no error occurs |
| `EagerGroups.FirstSeenIsExact` | backend/ent/account_query.go:619-628 | the neighbours are the groups of the stream, each once |
| `EagerGroups.LinkedGroupsAreTheJoin` | backend/ent/account_query.go:585-645 | an account's list holds exactly the groups that some row links it to, each once: the nested-loop join |
| `EagerGroups.AgreesPerAccountExactly` | backend/ent/account_query.go:585-645 | the batched load leaves the very list that a query for the account alone gives, if and only if, row by row, whenever the stream first links the account to a group it has already shown, no group shown after that one is linked to the account yet |
| `EagerGroups.GroupedStreamAgreesPerAccount` | backend/ent/account_query.go:585-645 | in particular it does for every account if the stream lists each group's rows together, as an order by group does |
| `EagerGroups.ScatteredStreamDisagrees` | backend/ent/account_query.go:585-645 | a stream of three rows for which it does not |
| `LoadGroups.ReadGroups` | backend/ent/account_query.go:608-634 | the wrapped scan and assign build one node for the first row of each group and record every row's account under its group |
| `LoadGroups.AppendToEach` | backend/ent/account_query.go:640-642 | in whatever order the inner map is visited, each of its nodes gains the group once |
| `LoadGroups.AttachGroups` | backend/ent/account_query.go:635-644 | on any answer, each group goes to every node of its link set, in order, until one without a link set, which is reported |
| `LoadGroups.Load` | backend/ent/account_query.go:585-645 | for every node list and stream, repeated rows included: no error, and each node its id leads to holds exactly its linked groups, each once, in stream order, as the objects all nodes share |
| `LoadGroups.GroupLoadIsComplete` | backend/ent/account_query.go:585-645 | the steps of the many-to-many load leave no group unattached and add up to the join |
| `QuerySpecs.SpecColumns` | backend/ent/account_query.go:783-805 | for every selection the id column is read first and once, with every selected field, `proxy_id` if the proxy is requested and `owner_user_id` if the owner is, and nothing else |
| `AccountQueries.SqlAll` | backend/ent/account_query.go:516-583 | fails exactly when a JSON column that is read does not decode; otherwise, whatever was selected, every accessor of every returned node answers from the cells of the full row: the proxy with the id in its `proxy_id` cell, the owner with the id in its `owner_user_id` cell, not found if the cell is NULL or names no row, not loaded if not requested; the lists and groups from its `id` cell; a requested list edge is never not loaded |
| `AccountQueries.AnswersFollowCells` | backend/ent/account.go:103-163 | what the accessors answer, read off the cells `id`, `proxy_id` and `owner_user_id` |
| `AccountQueries.ListsAnswerRows` | backend/ent/account.go:147-163 | after a list load, every node's accessor answers the children of its row |
| `AccountQueries.GroupsAnswerRows` | backend/ent/account.go:116-125 | after the group load, every node's accessor answers the groups linked to its row |
| `CreateThenQuery.CreateThenQuery` | backend/ent/account_create.go:755-960 | accounts created with any fields and edges, inserted under different ids and queried again with any selection and edges: the query succeeds, and every account gives back its fields, its groups, its proxy and its owner |
| `GroupTraversal.LoadWithGroups` | backend/ent/account_query.go:75-94 | an account query run with its groups requested finds, on all accounts it returns, exactly the groups that the traversal from the same query answers, both reading one account table under the same predicates |
| `GroupTraversal.TraversedIsExact` | backend/ent/account_query.go:786-790 | the traversal answers the groups that some selected account leads to, each once |
| `GroupTraversal.LeadsFromSelectedCells` | backend/ent/account_query.go:75-94 | a group is reached if and only if a link row leads to it from the `id` cell of an account that satisfies every predicate |
| `GoSlices.Append` | backend/ent/account_query.go:44-47 | `append` extends the contents and writes into the same array exactly when there is spare capacity |
| `GoSlices.AppendTwice` | backend/ent/account_query.go:44-47 | two appends to one slice with spare capacity overwrite each other |
| `GoSlices.CopyAllBut` | backend/ent/account_query.go:370-384 | copying the slices gives equal contents over new, different arrays |
| `QueryBuilder.Query.Step` | backend/ent/account_query.go:44-72 | every builder call changes the value of the tree as described and writes only to its own objects and new ones |
| `QueryBuilder.RunSettles` | backend/ent/account_query.go:44-72 | for every run of calls: slices are extended in order, limit, offset and uniqueness are the last ones set, each requested edge has a fresh child under its last options, and the rest is as before |
| `QueryBuilder.Query.Attach` | backend/ent/account_query.go:389-440 | attaching a child keeps the tree free of sharing and replaces the child of that edge only |
| `QueryBuilder.Query.Clone` | backend/ent/account_query.go:366-385 | the clone is an equal tree, modifiers aside, in which every builder, context and slice is new, the intermediate selector included |
| `QueryBuilder.CloneIsExact` | backend/ent/account_query.go:366-385 | a clone equals its original if and only if no builder of the tree carries a modifier |
| `QueryBuilder.CloneKeepsTheRest` | backend/ent/account_query.go:366-385 | equal or not, a clone has no modifiers and keeps every other slice, the paging, the path and the requested edges |
| `QueryBuilder.CloneThenInterleave` | backend/ent/account_query.go:366-440 | after any interleaving of calls on an original and its clone, each has the value it would have without the other |
| `QueryBuilder.Query.Only` | backend/ent/account_query.go:232-245 | the one matching row, or the right error, from a query limited to two; the limit stays on the builder |
| `QueryBuilder.Query.First` | backend/ent/account_query.go:186-195 | the first matching row or not found; the limit of one stays on the builder |
| `QueryBuilder.AnswerExactly` | backend/ent/account_query.go:813-818 | the answer starts at the offset, is cut at the limit, and its row at position `i` is the matching row `i` after the offset |
| `QueryBuilder.LimitLeftBehind` | backend/ent/account_query.go:186-245 | a limit set on a builder changes nothing else about it, and the builder answers the same rows as before if and only if it had that limit already or its rows fit both limits |
| `QueryBuilder.Query.FirstThenAll` | backend/ent/account_query.go:186-195 | after `First`, the same builder still answers all its rows exactly when they fit the limit of one, or that was its limit before |
| `AccountCreate.DefaultedIsExact` | backend/ent/account_create.go:569-639 | defaults fill only unset columns, keep the set ones, and stop exactly at a column that stays unset |
| `AccountCreate.AllDefaultsFilled` | backend/ent/account_create.go:569-639 | for the defaults of the source: with all of them available, every column that has one is set afterwards, to its default if it was unset |
| `AccountCreate.FirstFailureIsExact` | backend/ent/account_create.go:642-735 | the check passes if and only if every needed column is set and every validator accepts what is set |
| `AccountCreate.CheckAcceptsExactly` | backend/ent/account_create.go:642-735 | for the check of the source: it passes if and only if the seventeen columns an account must have are set and the validators of the eight validated columns accept what is set |
| `AccountCreate.IgnoredDefaultsErrorIsCaught` | backend/ent/account_create.go:2320-2329 | with nothing in between, the ignored error of `defaults` makes `check` fail |
| `AccountCreate.DefaultsLeaveThree` | backend/ent/account_create.go:569-735 | with all defaults available the check asks only for name, platform, type and the validators |
| `BulkCreate.WrapAll` | backend/ent/account_create.go:2356-2359 | wrapping from the last hook to the first makes hook 0 the outermost |
| `BulkCreate.BulkSave.Mutate` | backend/ent/account_create.go:2322-2355 | the nested closures compute the chain, which terminates on the number of builders left and the depth of the mutator |
| `BulkCreate.BulkSave.Save` | backend/ent/account_create.go:2311-2368 | the two loops of `Save` compute the whole save on the shared slices |
| `BulkCreateTheorems.WritesOnceWhenReady` | backend/ent/account_create.go:2322-2355 | whatever the hooks do, the batch is written at most once, with every spec in builder order, and only after every builder's check passed on its final mutation |
| `BulkCreateTheorems.SuccessMeansStored` | backend/ent/account_create.go:2322-2355 | if no hook swallows errors, success and every mark done mean that the rows are stored |
| `BulkCreateTheorems.StoredMeansSuccess` | backend/ent/account_create.go:2322-2355 | if no hook overturns success, stored rows mean success: every mutation is done, and the node of each builder carries the id the store assigned at its own position of the batch |
| `BulkCreateTheorems.StoredSpecsAreFinal` | backend/ent/account_create.go:2322-2355 | the stored batch is that of the mutations the hooks hand on, in builder order |
| `BulkCreateTheorems.StoredRowsCarryDefaults` | backend/ent/account_create.go:2315-2355 | the row stored for a builder without hooks holds its keys, its fields as set, and the default of every defaulted column that was left unset |
| `BulkCreateTheorems.IgnoredDefaultsErrorExactly` | backend/ent/account_create.go:2320-2329 | with hooks in between, a builder whose defaults stopped at a column gets through if and only if no hook vetoes, what the hooks hand on has that column and every other needed one set, and the validators accept |
| `BulkCreateTheorems.StoredExactly` | backend/ent/account_create.go:2322-2355 | whatever the hooks make of the outcome, the rows are stored if and only if no hook vetoes, every check accepts what the hooks hand on, and the store accepts those specs |
| `BulkCreateTheorems.StoredOutcomeExactly` | backend/ent/account_create.go:2322-2359 | once the rows are stored, and if no hook swallows errors, the outcome is success if and only if every hook answers success with success |
| `BulkCreateTheorems.BulkSaveIsAllOrNothing` | backend/ent/account_create.go:2311-2368 | with hooks that do not swallow errors, a save is all or nothing (success with one batch of every spec, all mutations done and their ids set, or an error with nothing stored and no mutation done) if and only if no hook overturns success or the save never gets as far as storing |
| `BulkCreateTheorems.OverturningBreaksAtomicity` | backend/ent/account_create.go:2311-2368 | one hook that reports an error after the write leaves stored rows, a mutation marked done, and a failed save |
| `BulkCreateTheorems.HooksNest` | backend/ent/account_create.go:2322-2359 | running a mutator logs a balanced stretch between the hooks that enclose it: the next builder runs inside the core of this one |
| `BulkCreateTheorems.SaveLogIsNested` | backend/ent/account_create.go:2311-2368 | the log of every save, successful or not, is a balanced and properly nested bracket sequence |
| `BulkCreateTheorems.BulkSaveSucceedsExactly` | backend/ent/account_create.go:2311-2368 | a save succeeds if and only if no hook vetoes, every check accepts what the hooks hand on, and the store accepts those specs |
| `EdgeDelta.AccountMutation.Add` | backend/ent/account_update.go:644-695 | adding ids joins them to those added, and touches nothing else |
| `EdgeDelta.AccountMutation.Remove` | backend/ent/account_update.go:709-755 | removing ids records them as removed and takes them out of those added |
| `EdgeDelta.AccountMutation.SqlSave` | backend/ent/account_update.go:1021-1180 | on every edge, for all neighbours there were, applying the emitted clear specs and then the add specs gives what the mutation means, (nothing if cleared, else the old without the removed) joined with the added; a clear-all is emitted exactly for cleared edges, never for an empty list |
| `EdgeDelta.AppliedJoin` | backend/ent/account_update.go:1021-1180 | specs about different edges do not interfere |
| `EdgeDelta.GatheringIsExact` | backend/ent/account_update.go:644-755 | gathering a call means what making it at once would mean, unless it clears an edge with ids added or a key set before, or is a reset that forgets the other mark of a clear: exactly then it does not |
| `EdgeRuns.OneIdInRun` | backend/ent/account_update.go:644-755 | over any run of calls, gathered and immediate changes differ on exactly the ids that were added before a clear and not named since |
| `EdgeRuns.ManyRunIsExact` | backend/ent/account_update.go:644-755 | a run on an edge to many saves what the calls in turn would leave if and only if no id outlived a clear |
| `EdgeRuns.OneRunIsExact` | backend/ent/account_update.go:224-242 | a run on an edge to one saves what the calls in turn would leave if and only if its last call is none that differs |
| `PythonText.StripParts` | tools/check_pnpm_audit_exceptions.py:12-19 | stripping removes whitespace from both ends and leaves a trimmed string |
| `PythonText.LowerForgetsCaseExactly` | tools/check_pnpm_audit_exceptions.py:164-181 | two strings have one lowered form if and only if they agree letter by letter up to ASCII case |
| `ExceptionParser.UnquotedExactly` | tools/check_pnpm_audit_exceptions.py:12-20 | a value loses its first and last character if and only if they are the same quote, and is kept as it is otherwise |
| `ExceptionParser.ParseExceptions` | tools/check_pnpm_audit_exceptions.py:23-48 | the single pass over the lines answers one record for each group of lines that an item starts, or raises |
| `ExceptionParser.ParsingRaisesExactly` | tools/check_pnpm_audit_exceptions.py:34-42 | parsing raises if and only if some item line has no colon |
| `ExceptionParser.OneRecordPerItem` | tools/check_pnpm_audit_exceptions.py:23-48 | no item is lost or merged, and no record is empty |
| `ExceptionParser.ParsingIsCompositional` | tools/check_pnpm_audit_exceptions.py:23-48 | a file whose second part starts with an item parses part by part |
| `ExceptionFiles.FieldReadsBack` | tools/check_pnpm_audit_exceptions.py:12-20 | a field reads back if and only if its key is trimmed without a colon and its form can express its value: in double or single quotes any value, plainly any trimmed value that does not stand between equal quotes |
| `ExceptionFiles.FurtherLineIsField` | tools/check_pnpm_audit_exceptions.py:28-45 | the line of a further field, plain or quoted, is read as that field if and only if its key does not make it a comment, a header or an item |
| `ExceptionFiles.WritingThenParsing` | tools/check_pnpm_audit_exceptions.py:23-48 | parsing the file of any list of writable records, each field written plainly or in either kind of quotes, gives the records back |
| `ExceptionFiles.BareDashIsIgnored` | tools/check_pnpm_audit_exceptions.py:28-45 | a dash on its own line, indented or not, starts no item: the file parses as without it |
| `ExceptionFiles.ReturnsEndLines` | tools/check_pnpm_audit_exceptions.py:23-29 | a carriage return ends a line, alone or with a line feed |
| `AuditPayload.CaseAndPaddingDoNotMatter` | tools/check_pnpm_audit_exceptions.py:164-181 | advisories and severities that agree letter by letter up to ASCII case, with any whitespace around them, have one normal form |
| `AuditPayload.PickPrefersStableIds` | tools/check_pnpm_audit_exceptions.py:51-61 | the advisory id picked is the first truthy one of GHSA id, URL, first CVE, numeric id as text, title and advisory text, else the overview; picking raises exactly when it comes to a `cves` that is neither a list nor a string |
| `AuditPayload.GetFinds` | tools/check_pnpm_audit_exceptions.py:51-61 | looking up a key answers its value, or null if there is none |
| `AuditPayload.ReadVia` | tools/check_pnpm_audit_exceptions.py:84-111 | the loop over `via` yields the truthy ids in order, and raises exactly when some item's title is a truthy non-string |
| `AuditPayload.UnjoinableExactly` | tools/check_pnpm_audit_exceptions.py:84-111 | a `via` item makes the join of the titles raise if and only if the first truthy one of its title, URL, advisory and source is no string |
| `AuditPayload.ViaPrefersStableIds` | tools/check_pnpm_audit_exceptions.py:84-111 | a `via` item goes by its GHSA id, else its URL, else its source, else its title, else its name |
| `AuditPayload.IterVulns` | tools/check_pnpm_audit_exceptions.py:64-111 | the records of both report forms, in order, or the exception a malformed entry raises |
| `AuditPayload.Validate` | tools/check_pnpm_audit_exceptions.py:114-161 | finds nothing wrong if and only if the report has no error, exactly one kind of result, and metadata whose high and critical counts are those of the result |
| `AuditPayload.SeverityCountIsCardinality` | tools/check_pnpm_audit_exceptions.py:140-150 | the counted severities are the number of entries whose severity normalises to it |
| `AuditGate.IndexExceptions` | tools/check_pnpm_audit_exceptions.py:205-238 | the index keeps the first usable exception of each key, and every other exception is reported |
| `AuditGate.RejectsExactly` | tools/check_pnpm_audit_exceptions.py:205-238 | nothing is reported if and only if every exception is usable and no two share a key |
| `AuditGate.ListedExactly` | tools/check_pnpm_audit_exceptions.py:209-238 | an exception is usable if and only if its five required fields are filled, its date is valid, and package and advisory are not blank; it is indexed under its own package and advisory with its own severity and date |
| `AuditGate.CheckVulns` | tools/check_pnpm_audit_exceptions.py:240-272 | the loop with its `seen` set reports exactly what each first alarm of a key and each blank advisory calls for |
| `AuditGate.AlarmsExactly` | tools/check_pnpm_audit_exceptions.py:245-256 | a record raises an alarm if and only if its severity is high or critical, up to case and whitespace, and it has a name |
| `AuditGate.ReportsNothingExactly` | tools/check_pnpm_audit_exceptions.py:240-272 | nothing is reported if and only if every alarm has an advisory and the first alarm of each key has an exception of blank or equal severity that has not expired |
| `AuditGate.Decide` | tools/check_pnpm_audit_exceptions.py:192-296 | the exit code is 0 if and only if the gate accepts the report, the exception file and the date |
| `GateStability.RepeatIsIgnored` | tools/check_pnpm_audit_exceptions.py:256-259 | inserting a record whose key came before, anywhere later and of any severity, never changes the verdict |
| `GateStability.QuietRecordsDoNotMatter` | tools/check_pnpm_audit_exceptions.py:245-248 | a record of another severity, or without a name, changes nothing wherever it stands |
| `GateStability.ExceptionOrderIsIrrelevant` | tools/check_pnpm_audit_exceptions.py:209-238 | the exceptions may come in any order |
| `GateStability.FileOrderIsIrrelevant` | tools/check_pnpm_audit_exceptions.py:23-48 | writing the same exceptions to the file in another order does not change the verdict |
| `GateStability.RecordOrderIsIrrelevantExactly` | tools/check_pnpm_audit_exceptions.py:245-272 | every order of the alarms gives the same verdict, if and only if they are not mixed, that is unless the exceptions are in order, no advisory is blank, every key has an excused alarm, and some alarm is not excused |
| `GateStability.AgreeingIsUnmixed` | tools/check_pnpm_audit_exceptions.py:245-272 | in particular the order does not matter if alarms of one key agree in severity |
| `GateStability.ReportOrderIsIrrelevantExactly` | tools/check_pnpm_audit_exceptions.py:245-272 | the records of a report may come in any order, if and only if their alarms are not mixed |
| `GateStability.RecordOrderMayDecide` | tools/check_pnpm_audit_exceptions.py:256-268 | without that, two records in the other order get the other verdict |
| `GateStability.AcceptedEarlier` | tools/check_pnpm_audit_exceptions.py:269-272 | what is accepted on a day is accepted on every earlier day |
| `GateCoverage.PassedRecordsAreExcepted` | tools/check_pnpm_audit_exceptions.py:245-272 | when the gate passes, each high or critical record of a named package, not only the first of its key, has an exception for its key that has not expired |
| `GateCoverage.AdvisoriesAreExcepted` | tools/check_pnpm_audit_exceptions.py:64-79 | when the gate passes, every high or critical entry of `advisories` about a package, by `module_name` or else by `name`, has an unexpired exception for that package and the advisory it picks, which is not blank |
| `GateCoverage.SilentEntriesExactly` | tools/check_pnpm_audit_exceptions.py:80-111 | an entry of `vulnerabilities` yields no record if and only if no item of its `via` names an advisory |
| `GateCoverage.AcceptedEntriesAreExceptedExactly` | tools/check_pnpm_audit_exceptions.py:80-111 | when the gate passes, a high or critical vulnerability of a named package has an exception that has not expired, for some advisory its `via` names, if and only if its `via` names any |
| `GateCoverage.ViaAdvisoriesAreExcepted` | tools/check_pnpm_audit_exceptions.py:80-111 | when the gate passes, each single advisory that the `via` of a high or critical vulnerability names has an unexpired exception for that package |
| `GateCoverage.AcceptedReportsAreExcepted` | tools/check_pnpm_audit_exceptions.py:192-296 | from report to file: when the gate accepts, for every high or critical entry of either form that names a package and an advisory, some record of the parsed file has all required fields, that package and advisory, and a date that has not passed |
| `GateCoverage.SilentReportsAreAccepted` | tools/check_pnpm_audit_exceptions.py:80-111 | a report in order whose entries all have an empty `via` is accepted without exceptions, however many high ones it counts |
| `GateCoverage.SilentReportExists` | tools/check_pnpm_audit_exceptions.py:80-111 | the smallest such report: one high vulnerability, rightly counted, accepted without exceptions |

## Left out

- SQL text, drivers, dialects, transactions and `sqlgraph`: the store answers a child query with the rows that satisfy its predicates, in a fixed order, and a batch write either fails or assigns ids; `BatchCreate` is a function of the specs. That the store clears edges before it adds edges is an assumption of the model.
- Interceptors, contexts, `ForUpdate` and `ForShare` locking itself, `GroupBy`, `Aggregate`, `Count`, `IDs`, `Exist`, `FirstID`, and the panicking variants: library calls or simple wrappers.
- The other entities' generated files, the setters, and the upsert builders: the same template again.
- `LoadGroups.Load`: models one run of the loader; a second run through the same group builder, which appends a second join, is not modelled. The order within the stream is whatever the store answers.
- `LoadGroups.ReadGroups`: the columns of a group other than its id are not modelled.
- `ChildQueries.ChildQuery.All`: limits, offsets and nested eager loads of a child query are not modelled; a neighbour is reduced to its id and foreign key, and an AccountGroup, which has a composite key, to one number and its foreign key.
- `GroupTraversal.LoadWithGroups`: the account query has predicates but no order, offset or limit, and the two queries see the same table; the results are compared as sets, since they come in different orders.
- `AccountCodec.WriteFields`: the generated code has one `if` block for each column; the model runs them as one loop over the columns in the same order.
- `AccountCodec.WriteReadRoundTrip`: JSON documents are opaque texts, either decodable or not, so that decoding gives back what was encoded is an assumption, and times and floats are copied, not rounded.
- `BulkCreate.BulkSave.Save`: hooks call the next mutator at most once and on their own builder's mutation; a hook that calls it twice, swaps in another mutation object, or a builder listed twice is not modelled. The mutations are positions of one sequence rather than objects of their own. `_c.err` and conflict options are left out.
- `BulkCreateTheorems.BulkSaveIsAllOrNothing`: is stated for hooks that do not swallow errors; hooks that answer an error with success are outside its statement.
- `BulkCreateTheorems.WritesOnceWhenReady`: like every statement about bulk saves it holds for hooks that call the next mutator at most once and on the same mutation; a hook that calls it twice would write twice.
- `AccountCodec.BuildCreateSpec`: the default fields of the link table entity that the groups edge carries are left out.
- `QueryBuilder.Query.Clone`: function values are represented by numbers, so the traversal closure that a clone shares with its original is only a number here, and what it does when it runs is not modelled; the intermediate selector is the list of its clauses.
- `QueryBuilder.Query.Step`: an offset or a limit is a natural number, and `Page` takes a limit of 0 literally, which the store may treat as no limit.
- `EdgeDelta.AccountMutation.SqlSave`: the plain field part of the update, the fields of the link table entity, and updates of several accounts at once are left out. `AccountUpdateOne.sqlSave` emits the same edge specs.
- `AuditPayload.CaseAndPaddingDoNotMatter`: `PythonText.Lower` lowers ASCII letters only; other letters with case are left as they are.
- `AuditGate.Decide`: reading files and arguments, decoding JSON, the texts of the messages and their order are left out; `date.fromisoformat` and `str` on values that are no strings are parameters. A traceback and exit code 1 are different answers of the model, although the shell sees the same status.
- `AuditPayload.Validate`: says exactly when nothing is wrong, but not which of the messages is given when something is.
- `GateStability.RepeatIsIgnored`: is stated on the alarms, that is on the high and critical records of named packages; `GateStability.QuietRecordsDoNotMatter` says of the other records that they do not reach the decision.
