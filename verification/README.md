# Verified model of the LDP pod and its view engine

The system is a personal data store: a Linked Data Platform server with a SPARQL endpoint, and a
separate view engine that hands out the results of stored CONSTRUCT queries to the holders of
grants, under ceilings and intervals it enforces by counters kept in the store. This project
models its five hard parts in Dafny and proves what they promise.

* **Delivery enforcement** (`Delivery*.dfy`, `EnforcementClient.dfy`, `Policy.dfy`,
  `Preconditions.dfy`, `Rdf.dfy`). The engine and the server are a state machine whose steps are the
  atomic actions of either side: a client's GET, the server's guard on a conditional PUT, the locked
  compare-and-replace, and between any two of them owner writes, deletes, policy changes and raw
  enforcement PUTs. Every theorem is about every sequence of steps by any number of requests. An
  entity tag is the graph's isomorphism class, with isomorphism defined by blank-node renamings.
  `DeliveryPolicy` says over the stored policy and the records read what a decision does, and that
  nothing is written or logged without one that allowed it.
  `EnforcementClient` has the same bump as the client's own loop, and `DeliveryTight` builds runs that
  reach the ceiling's bound.
* **The store** (`Paths.dfy`, `Storage*.dfy`, `Containers.dfy`, `Ldp*.dfy`, `MisnamedDeletes.dfy`).
  The filesystem backend is a class over files and an in-memory dataset, and the request handlers run
  on it, with every error the file system raises. `Ldp` says what requests mean on a pod of graphs and
  binaries; whatever the handlers do to the files shows as that, one request at a time and over whole
  runs. Containment, reachability from the root and the GET/PUT round trip are proved for every
  sequence of serialized requests on the files. The contracts of the storage and handler methods name
  functions that follow the code branch by branch; what those mean is said by `Storage.AgreesIff` and
  the `StorageAgreement` theorems, by `LdpRefinement.StepRefines` and `RunRefines`, and by `LdpAnswers`,
  which gives every answer and everything stored in terms of triples.
* **Query rewriting** (`Scanner.dfy`, `Splicing.dfy`, `Lexing.dfy`, `Bindings.dfy`, `BlockReads.dfy`,
  `StateScope.dfy`, `StateClauses.dfy`, `ScopedScan.dfy`, `QueryGrammar.dfy`, `Sparql.dfy`). The scanner's
  loop is proved to be a recursive tokenizer, and that to follow the lexical grammar; splicing is proved to split token sequences, the text of an injected block is read back to
  its variables and terms, and the query with that row is proved to mean substitution in the algebra
  of the SPARQL 1.1 Query Language.
* **The browser client's RDF code** (`JsText.dfy`, `Turtle.dfy`, `Cursor.dfy`, `Readers.dfy`,
  `ViewTurtle.dfy`, `ViewRoundTrip.dfy`, `NTriplesDocs.dfy`, `TurtleTerms.dfy`, `TurtleDocs.dfy`, `ParsersAgree.dfy`,
  `MinimalSpace*.dfy`). Both parsers exist twice, as functions of the remaining text and as readers that
  move a cursor in place; documents and their meaning are given by the grammars, without the parsers.
* **Proxy URLs** (`UrlQuery.dfy`, `Params.dfy`, `Proxy.dfy`, `BlobGate.dfy`). Rewriting, percent-encoding, routing,
  form decoding, re-binding and the dereference gate.

Where the code does not do what it is said to do, the code is modelled as it is, a lemma gives an
input, and another says exactly when the promise holds:

| promise | fails for | exact condition |
|---|---|---|
| a restart comes up with the dataset there is | a write of the document `x.ttl/y` or the container `x.ttl/`, whose directory the start takes for a Turtle file; a write through a name that does not map back to itself, such as one with `//`; DELETE of `y.ttl` when the document `y` exists; DELETE of `a/` when the binary `a` exists | `StorageAgreement.WriteAgreesIff`, `WriteBinaryAgreesIff` and `DeleteAgreesIff`; over whole runs of every operation `AgreesThroughoutIff`, and over whole runs of requests `LdpRestarts.RestartsIff` |
| every containment triple names a child that exists | DELETE of `y.ttl` beside the document `y`, of `a/` beside the binary `a`, or of `a/.ttl`, the file of the container `a/` | `MisnamedDeletes.DeleteSoundIff` |
| every resource is reached from the root | DELETE of `a/.ttl` when the container `a/` lists something: the guard of non-empty containers looks at another file | `MisnamedDeletes.DeleteTreeIff` |
| more supplied parameters only narrow a view | a parameter that occurs in the CONSTRUCT head alone | `Sparql.NarrowsIff`; for one triple pattern of a head `Sparql.PatternNarrowsIff` |
| the store undoes the engine's scoping | a word character, such as the end of `FROM :%20`, directly before WHERE; the clause's text elsewhere in the query, as its own or in a string | `StateScope.ScopeIsUndoneIff` |
| the store strips a query's state clauses and nothing else | a string that holds the clause's text | `StateClauses.StripsExactlyIff` |
| a proxy URL carries the request | a declared parameter named `uri`; a view stored under an id with `?`, `#` or a percent escape, such as `a?b` | `Proxy.CarriesRequestIff` |
| the Turtle parser reads every number | a double whose exponent follows its point, such as `1.e0` | `TurtleTerms.NumeralIsReadIff` |
| the Turtle parser reads every prefixed name | a local part with a dot in it, or with an escaped comma | `TurtleTerms.NameIsReadIff` |
| the Turtle parser takes directives alone for directives | a subject `base:x`, whose triple is lost | `TurtleDocs.NameIsDirectiveIff` |
| the N-Triples parser reads every document | `_:b<x:p> <x:o>.`, where minimal white space is legal | `MinimalSpace.NTriplesRightIff` |
| the Turtle parser reads every N-Triples document | the same, and white space between `^^` and the datatype | `MinimalSpaceTurtle.TurtleRightIff` |

That the last two conditions of the table suffice is proved for every document. That they are needed is false of a
few odd documents, in which a parser that lost its way returns the right triples by coincidence, and
proved of all others: `MinimalSpace.CoincidenceNTriples` and `MinimalSpaceTurtle.CoincidenceTurtle`
give such a document for either parser.

## Model

| member | source | states |
|---|---|---|
| Rdf.EtagIdentifiesUpToIso | ldp_common/rdfcontent.py:135-147 | two graphs have one tag exactly when a blank-node renaming maps one onto the other |
| Preconditions.SatisfiedIff | ldp_common/rdfcontent.py:165-190 | a write over something stored passes only with `*` or the stored tag, a create-only write never replaces |
| Policy.AllowedIff | ldp_view_engine/policy.py:21-64 | a request is allowed exactly when no ceiling is reached, the interval has passed since a real last use, and the clock is in every window; what this does to a request is DeliveryPolicy.DecideIff |
| Policy.RefusalNamesViolation | ldp_view_engine/policy.py:21-64 | a request is refused exactly when a constraint is violated, and the reason names the first violated one |
| Policy.RateLimit | ldp_view_engine/policy.py:50-56 | over any run of sequential deliveries the recorded times of neighbours differ by at least the interval, and their true instants by more than one second less |
| Policy.RateLimitIsTight | ldp_view_engine/engine.py:132-133 | the one-second slack of truncated clocks is reached |
| DeliveryCounts.NoBumpLostOrDoubled | ldp_view_engine/client.py:229-259 | in every interleaving a record's counter equals the bumps answered 200 since the owner last wrote the record |
| DeliveryCounts.CommitCounts | ldp_personal_store/storage/filesystem.py:150-172 | a replace whose tag still matches stores the current count plus one, whoever wrote the current record |
| DeliveryScope.EnforcementStaysInScope | ldp_personal_store/storage/router.py:60-100 | in every interleaving, whatever is submitted, the record outside the enforcement fields stays isomorphic to what the owner last wrote, and a record the owner did not write does not exist |
| DeliveryScope.PassedIsAnchored | ldp_personal_store/storage/router.py:77-88 | a guard that passes ties the submitted graph's out-of-scope part to the tag it returns |
| DeliveryScope.DeletedStaysDeleted | ldp_personal_store/storage/filesystem.py:163-172 | after a delete no enforcement PUT in flight brings the record back |
| DeliveryPolicy.DecideIff | ldp_view_engine/engine.py:112-113 | a decision clears the request exactly when the clock is within the stored policy's window, ends included, both counts read are below their ceilings and the interval has passed since a real last use, ends it as denied otherwise, and changes nothing else |
| DeliveryPolicy.AuthenticateReads | ldp_common/tokenrecord.py:85-99 | what the decision knows of the grant is the count and the date of last use on its record |
| DeliveryPolicy.LoadViewReads | ldp_view_engine/policy.py:57-64 | and of the view, its count and its ceiling, if it has one |
| DeliveryPolicy.NoViewIsDenied | ldp_view_engine/engine.py:28-33 | a view without a record is denied |
| DeliveryPolicy.PastWasAllowed | ldp_view_engine/engine.py:112-133 | in every interleaving a request that is cleared, bumps, logs or has done so passed a decision that the policy in force allowed, on what the request had read |
| DeliveryPolicy.WrittenWasAllowed | ldp_view_engine/engine.py:45-59 | so every bump in the history was written for such a request, on its own grant or view |
| DeliveryPolicy.LoggedWasAllowed | ldp_view_engine/engine.py:45-59 | so every log entry is that of a delivered request, with its view, its grant and its recorded time, which such a decision allowed |
| DeliveryPolicy.RawGuardIff | ldp_personal_store/storage/router.py:60-88 | anyone's enforcement PUT is let through exactly on an existing record, under `*` or its tag and no create-only header, with a body that agrees out of scope |
| DeliveryBudget.EveryStaleIsForeign | ldp_view_engine/client.py:229-259 | in every reachable state each 412 an attempt meets is paid for by someone else's write in that attempt's own window, besides those that paid for earlier 412s |
| DeliveryBudget.ContendedOutCostsTen | ldp_view_engine/client.py:28-33 | a bump contends out only if others wrote the record at least ten times during its loop |
| DeliveryBudget.DisplacementBound | ldp_view_engine/client.py:28-33 | contenders that commit once each displace a request at most once each |
| DeliveryBudget.TenContendersSucceed | ldp_view_engine/client.py:28-33 | with at most ten contenders and no other writer nobody contends out |
| DeliveryBudget.BumpIsNeverForbidden | ldp_personal_store/storage/router.py:60-88 | in any interleaving the engine's own bump is answered 404, 412 or 200, never 403 or 428 |
| DeliverySuccess.TenContendersGoOn | ldp_view_engine/client.py:229-259 | with at most ten contenders, each step of a bump's loop on an existing record with a readable count moves it on in the loop or completes the bump |
| DeliverySuccess.TenContendersAllSucceed | ldp_view_engine/client.py:229-259 | so within thirty steps of its own, ten attempts of a GET and the two halves of a PUT, the bump is done, whatever the others do in between |
| DeliveryCeiling.CeilingUnderConcurrency | ldp_view_engine/policy.py:46-64 | with ceiling M and at most K requests in flight the grant's counter, and likewise the view's, never exceeds M + K - 1, and under a ceiling of zero stays zero |
| DeliveryTight.CeilingIsTight | ldp_view_engine/policy.py:46-48 | for every ceiling M, zero included, and every K of at least one there is a run within the same hypotheses whose counter reaches that bound |
| DeliveryRate.RateLimitInRuns | ldp_view_engine/policy.py:50-56 | in the state machine itself: if a grant's requests come one after another, the dates of last use stored since the owner last wrote it are as many as its bumps and at least the interval apart, whatever else happens in between |
| DeliveryLog.DeliveryAccounting | ldp_view_engine/engine.py:45-59 | in every reachable state the committed bumps of a grant or view are its log entries plus the deliveries between bump and append |
| DeliveryLog.CounterAgainstLog | ldp_personal_store/storage/router.py:163-194 | a record written once by its owner counts its log entries plus those deliveries |
| DeliveryLog.StatisticsAddUp | ldp_view_engine/stats.py:44-69 | the per-view and the per-grant statistics each sum to the size of the log |
| DeliveryLog.StatisticsRow | ldp_view_engine/stats.py:9-24 | a record's row is the number of its log entries |
| EnforcementClient.Without | ldp_personal_store/storage/router.py:51-57 | the copying loop leaves out exactly the subject's fields |
| EnforcementClient.Server.Guard | ldp_personal_store/storage/router.py:60-88 | the answer of the PUT's first half under any headers: existence, then preconditions, then scope; nothing is written |
| EnforcementClient.Server.Replace | ldp_personal_store/storage/filesystem.py:150-172 | it stores exactly when the record it finds carries the expected tag; what it replaced is the stage the record was at just before, and a refusal leaves the record to the others |
| EnforcementClient.Edited | ldp_view_engine/client.py:234-238 | removing and adding triple by triple is the bumped graph |
| EnforcementClient.Bump | ldp_view_engine/client.py:229-259 | the retry loop, answered 200, wrote once, over a record the server held, an isomorphic copy with the count one higher; otherwise it wrote nothing; contended out, others wrote at least ten times; it is never refused for its scope, and undisturbed it succeeds, unless the record is gone or its count is no number |
| EnforcementClient.BumpRaisesByOne | ldp_view_engine/client.py:229-259 | that copy holds the replaced record's count plus one, a grant's new date of last use, and nothing else differs out of scope |
| Paths.ResolveIsResolved | ldp_personal_store/storage/filesystem.py:48-53 | a path that resolves within the root resolves to one without empty, `.` or `..` segments |
| Paths.ResolvesBy | ldp_personal_store/storage/filesystem.py:48-53 | a path resolves by keeping clean segments, dropping empty ones and `.`, taking `..` with the segment before it, and leaving the root by a `..` without one |
| Storage.AgreesIff | ldp_personal_store/storage/filesystem.py:68-72 | what agreement of dataset and disk means, name by name: every `*.ttl` file is Turtle, no directory is called so, and the files give the same graphs under the same names |
| Storage.FilesystemBackend.Load | ldp_personal_store/storage/filesystem.py:57-73 | starting from the files ends in a dataset that agrees with them, or fails exactly when something called `*.ttl` is a directory or no Turtle |
| Storage.FilesystemBackend.WriteSystem | ldp_personal_store/storage/filesystem.py:90-101 | the write's new state and outcome, errors included |
| Storage.FilesystemBackend.WriteBinary | ldp_personal_store/storage/filesystem.py:103-123 | the binary write with its sidecar, errors included |
| Storage.FilesystemBackend.DeleteSystem | ldp_personal_store/storage/filesystem.py:129-148 | the delete's new state and outcome, on either branch |
| Storage.FilesystemBackend.ReplaceIfUnchanged | ldp_personal_store/storage/filesystem.py:150-172 | the conditional replace's new state and answer |
| StorageAgreement.WriteAgreesIff | ldp_personal_store/storage/filesystem.py:90-101 | a completed write keeps agreement exactly for names that map back to themselves and have no segment above the last that ends in `.ttl` |
| StorageAgreement.WriteBinaryAgreesIff | ldp_personal_store/storage/filesystem.py:103-123 | a write of bytes, first or over something, completed or not, keeps agreement exactly when its sidecar's file is the one the sidecar's name is read from, and the bytes go to no `.ttl` file and below no directory called so |
| StorageAgreement.DeleteAgreesIff | ldp_personal_store/storage/filesystem.py:129-148 | a delete keeps agreement exactly when the file it unlinks is the one of its own name, on either branch and for every outcome |
| StorageAgreement.AgreesThroughoutIff | ldp_personal_store/storage/filesystem.py:90-172 | over every sequence of writes, binary writes, deletes and conditional replaces the dataset agrees with the disk at every stage exactly when each operation meets its own condition in the state it finds |
| StorageAgreement.AlwaysAgrees | ldp_personal_store/storage/filesystem.py:90-172 | it does so for canonical names below no segment that ends in `.ttl`, containers and their deletes included, as long as no delete takes bytes kept under another name |
| StorageAgreement.WritingBelowTtlBreaks | ldp_personal_store/storage/filesystem.py:68-72 | writing the document `x.ttl/y`, or the container `x.ttl/`, is done under a canonical public name, and the backend does not come up again |
| StorageAgreement.DeletingTtlNameBreaks | ldp_personal_store/storage/filesystem.py:137-148 | deleting `y.ttl` beside a document `y` loses its file and keeps its graph |
| StorageAgreement.DeletingSlashNameBreaks | ldp_personal_store/storage/filesystem.py:137-148 | deleting `a/` beside a binary `a` loses its sidecar file and keeps its graph |
| StorageRefinesPod.WriteRefines | ldp_personal_store/storage/filesystem.py:86-101 | a completed canonical write shows as the pod with that graph |
| StorageRefinesPod.WriteBinaryRefines | ldp_personal_store/storage/filesystem.py:103-123 | a completed canonical binary write shows as the pod with those bytes and their sidecar |
| StorageRefinesPod.DeleteRefines | ldp_personal_store/storage/filesystem.py:125-148 | a completed delete of what is stored under the name, container, document or binary, shows as the pod without it, and it was there |
| StorageRefinesPod.ReadRefines | ldp_personal_store/storage/filesystem.py:74-84 | a read finds exactly the graphs the pod shows |
| StorageRefinesPod.ReplaceRefines | ldp_personal_store/storage/filesystem.py:150-172 | a conditional replace stores exactly when a graph is stored whose tag is the expected one, and changes nothing otherwise |
| Containers.ParentIsShorter | ldp_personal_store/ldp/containers.py:23-32 | the parent of a URI under the base other than the base is a proper prefix of it |
| Containers.ParentOfMember | ldp_personal_store/ldp/containers.py:23-32 | a container followed by one segment has that container as parent |
| Containers.ParentOfContainer | ldp_personal_store/ldp/containers.py:23-32 | and so has it with any slashes after the segment: a container lies in its parent like any member |
| Containers.SlugIsSafe | ldp_personal_store/ldp/containers.py:35-38 | a sanitized slug is short, made of letters, digits and dashes, and has no dash at either end |
| Containers.GapsBecomeDashes | ldp_personal_store/ldp/containers.py:35-38 | whatever stands between two clean pieces, with no letter or digit in it, becomes one dash |
| Containers.MintedFromSlug | ldp_personal_store/ldp/containers.py:41-51 | a clean slug is kept as it is, before a dash and eight digits; without one the segment is the whole identifier |
| Containers.MintedInContainer | ldp_personal_store/ldp/containers.py:41-51 | a minted URI has its container as parent and is no sidecar's name |
| LdpServer.PutRdfResource | ldp_personal_store/ldp/router.py:342-407 | the handler's steps on the backend, file system errors included, end in the specified files, dataset and status; it is answered 409, with nothing changed, exactly when its preconditions pass and it clashes with a stored container's members |
| LdpServer.PutBinaryResource | ldp_personal_store/ldp/router.py:410-441 | likewise for a binary PUT |
| LdpServer.PostMember | ldp_personal_store/ldp/router.py:463-495 | likewise for a POST |
| LdpServer.AttachToParent | ldp_personal_store/ldp/router.py:498-515 | it adds the one containment triple to an existing container parent, and nothing else |
| LdpServer.DetachFromParent | ldp_personal_store/ldp/router.py:518-533 | it removes the one containment triple from an existing parent, and nothing else |
| LdpServer.DeleteResource | ldp_personal_store/ldp/router.py:702-726 | the guard, the delete and the detach end in the specified files, dataset and status |
| LdpAnswers.PutConflictsIff | ldp_personal_store/ldp/router.py:367-378 | on the files: a PUT is answered 409 exactly when a container is stored and the body's `ldp:contains` objects are some and not the stored ones, and then nothing changes |
| LdpAnswers.PutRdfAnswer | ldp_personal_store/ldp/router.py:342-407 | every answer of a graph's PUT and its condition, what is stored triple by triple, and which parent lists it |
| LdpAnswers.PutBinaryAnswer | ldp_personal_store/ldp/router.py:410-441 | every answer of a binary's PUT, its description, and which parent lists it |
| LdpAnswers.PostAnswer | ldp_personal_store/ldp/router.py:463-495 | every answer of a POST; what is created is listed by the container it was posted to |
| LdpAnswers.DeleteAnswer | ldp_personal_store/ldp/router.py:702-726 | every answer of a DELETE; a container that lists anything is kept, and the parent lists the deleted resource no more |
| LdpAnswers.ReservedIff | ldp_personal_store/storage/system.py:18-25 | the refused names are `.system`, `.engine`, `sparql` and `health`, and all below them |
| LdpRefinement.StepRefines | ldp_personal_store/ldp/router.py:342-726 | every PUT, POST and DELETE whose name is its own in the state it meets shows on the files as it does on the pod, with the same answer, unless the file system refuses it |
| LdpRefinement.RunRefines | ldp_personal_store/ldp/router.py:342-726 | after every such run the files show the pod that the requests not refused make |
| LdpRuns.ContainmentStaysSound | ldp_personal_store/ldp/router.py:342-726 | over every run on the files of requests whose names are their own each stored containment triple has its own resource as subject and names an existing child of it |
| MisnamedDeletes.DeleteSoundIff | ldp_personal_store/ldp/router.py:702-726 | for every DELETE, containment stays sound exactly when no file of another name, listed by its parent, is unlinked |
| MisnamedDeletes.DeletingTtlNameUnsound | ldp_personal_store/storage/filesystem.py:137-148 | DELETE of `y.ttl` beside a document `y` leaves the root listing what is gone |
| MisnamedDeletes.DeletingSlashNameUnsound | ldp_personal_store/storage/filesystem.py:137-148 | DELETE of `a/` beside a binary `a` does so too |
| LdpContainment.DeletedIsDetached | ldp_personal_store/ldp/router.py:518-533 | after a delete no stored triple contains the deleted URI |
| LdpRuns.EveryResourceReachable | ldp_personal_store/ldp/router.py:342-726 | in every state of such a run that creates under existing containers, every resource is reached from the root by a chain of containment |
| MisnamedDeletes.DeleteTreeIff | ldp_personal_store/ldp/router.py:702-726 | for every DELETE, every resource stays listed by its parent exactly when no container that lists something has its file unlinked under another name |
| MisnamedDeletes.DeletingOwnFileOrphans | ldp_personal_store/ldp/router.py:712-719 | DELETE of `a/.ttl` passes the guard of non-empty containers, and no chain leads to what `a/` listed |
| LdpRuns.SeededIsHealthy | ldp_personal_store/bootstrap.py:10-24 | startup on an empty storage root leaves a state the run theorems start from |
| LdpRestarts.RestartsIff | ldp_personal_store/storage/filesystem.py:68-72 | after any run of requests under names of their own a restart comes up with the dataset there is exactly when it would have before and no request answered 201 created anything below a directory called `*.ttl` |
| LdpRestarts.SeededRestarts | ldp_personal_store/bootstrap.py:10-24 | what the first startup leaves is a state to restart from |
| LdpReachability.TreeServe | ldp_personal_store/ldp/router.py:702-726 | each request keeps every resource listed by its parent, the delete by its refusal of containers that list anything |
| LdpReachability.ChainToRoot | ldp_personal_store/ldp/containers.py:23-32 | listing by parents gives a chain from the root, because parents get shorter |
| LdpReachability.SeededPod | ldp_personal_store/bootstrap.py:10-24 | the pod that holds only its root container satisfies both invariants |
| LdpRoundTrip.ContainerPrefer | ldp_common/rdfcontent.py:36-59 | what each header asks for: a minimal container has just the parts included besides, otherwise all is sent that is not omitted |
| LdpRoundTrip.ContainerRepresentation | ldp_personal_store/ldp/router.py:242-267 | the graph edited triple by triple is the specified representation |
| LdpRoundTrip.RepresentationIff | ldp_personal_store/ldp/router.py:242-267 | which triples a client is sent under which preference, one by one |
| LdpRoundTrip.GetThenPut | ldp_personal_store/ldp/router.py:363-392 | putting back what a GET returned, under any preference, with its tag succeeds and stores the old graph plus the LDP types only |
| LdpRoundTrip.SecondRoundIsFixpoint | ldp_personal_store/ldp/router.py:363-392 | from the second round on nothing changes |
| LdpRoundTrip.RoundTripStaysClean | ldp_personal_store/ldp/router.py:242-267 | a round trip never changes containment and may be repeated |
| LdpRuns.RoundTripAtAnyTime | ldp_personal_store/ldp/router.py:242-407 | after any run that created and deleted members, a GET of the container put back on the files is answered 200 and adds the LDP types only, and doing it again changes nothing |
| LdpRoundTrip.PutLeavesClean | ldp_personal_store/ldp/router.py:363-392 | a container PUT leaves a graph whose round trip is covered |
| Scanner.ScanWhereGroup | ldp_view_engine/bindings.py:13-60 | the scan terminates and returns the first brace, the first bare WHERE and the first brace after it of the reference tokenizer, which QueryGrammar ties to the lexical grammar |
| QueryGrammar.LiteralIsOneToken | ldp_view_engine/bindings.py:28-39 | wherever a token starts, a string literal of any of the four forms, written by the grammar, is exactly one |
| QueryGrammar.NotInsideLiterals | ldp_view_engine/bindings.py:28-39 | nothing that the scan reports lies inside such a literal |
| QueryGrammar.EveryTextIsLexed | ldp_view_engine/bindings.py:13-60 | every text that does not end in a backslash is made of comments, literals, IRI references, braces, names and other characters, the last perhaps left open |
| QueryGrammar.ScanReports | ldp_view_engine/bindings.py:13-60 | of such a text the scan reports the first brace, the first bare WHERE in any letter case, and the first brace after it, among those pieces, or that there is none |
| QueryGrammar.ReportedOutside | ldp_view_engine/client.py:122-129 | so no WHERE and no brace inside a literal, a comment or an IRI reference is mistaken for one |
| Splicing.TokensConcat | ldp_view_engine/bindings.py:13-60 | after a text whose last token cannot grow, the tokens of what follows start afresh |
| Splicing.ScanOfPrefix | ldp_view_engine/bindings.py:13-60 | the scan's answer depends only on the text up to the group's brace |
| Bindings.InjectionKeepsScan | ldp_view_engine/bindings.py:67-73 | injecting a closed block leaves the three positions and splits the tokens into prefix, block and suffix |
| Bindings.SecondInjection | ldp_view_engine/bindings.py:67-73 | a second injection puts its block directly before the first |
| QueryGrammar.InjectionByGrammar | ldp_view_engine/bindings.py:92-114 | for a template of such pieces: without WHERE, without a group after it or without a brace before it the binding fails with its own error; otherwise the block stands right after the group's brace, and the query has to parse |
| BlockReads.BlockIsClosed | ldp_view_engine/bindings.py:85-89 | whatever the values, the built block is lexically closed: its names are VALUES and the variables in order, it has one brace and no comment, and it reads back to its variables and terms |
| BlockReads.BoundQueryKeepsScan | ldp_view_engine/bindings.py:92-114 | a bound query keeps the template's positions, and between the template's names stand just VALUES and the supplied variables in order, with one more brace and no comment: no value reaches outside its place |
| BlockReads.BoundQueryMeansSubstitution | ldp_view_engine/bindings.py:92-114 | the bound query's lexemes are the template's around a block that reads back to the row of supplied terms, and with that row the query builds the template's triples with each supplied parameter replaced |
| StateScope.ScopeIsUndoneIff | ldp_personal_store/sparql/router.py:101-120 | for every query with a WHERE the store undoes the engine's scoping, leaving two spaces, exactly when no word character directly precedes WHERE and the pattern matches nothing before it or from it on |
| StateScope.FlagMeansChanged | ldp_personal_store/sparql/router.py:101-120 | the flag is set exactly when the query came back changed, and then it came back shorter |
| QueryGrammar.ScopingByGrammar | ldp_view_engine/client.py:126-129 | the engine's clause goes right before the first bare WHERE of the pieces; without one there is none |
| StateClauses.StripsExactlyIff | ldp_personal_store/sparql/router.py:117-120 | the store replaces exactly the state clauses among the query's tokens exactly when every match of the pattern starts at a token and spells the graph as it is, and every clause is written with plain white space after a word boundary |
| StateClauses.ClauseInString | ldp_personal_store/sparql/router.py:117-119 | a legal query that scans, has no state clause, and holds the clause's text in one string token comes back with another string and the wider scope |
| StateScope.DigitBeforeWhere | ldp_personal_store/sparql/router.py:117-117 | a legal query whose FROM ends in a digit before WHERE is scoped by the engine and missed by the store |
| ScopedScan.ScopedScanMoves | ldp_view_engine/client.py:105-129 | rescanning the scoped query finds WHERE and its group moved by the clause's length |
| ScopedScan.ScopedInjectionMoves | ldp_view_engine/authentication.py:41-44 | likewise after a block was injected first |
| Sparql.InjectionIsSubstitution | ldp_view_engine/bindings.py:92-114 | the injected query builds exactly the triples of the template with each supplied parameter replaced by its term in head, patterns and filters |
| Sparql.NarrowsIff | ldp_common/viewmodel.py:96-104 | more parameters narrow every head on every graph exactly when each extra one occurs in the triple patterns, or nothing satisfies the group |
| Sparql.UnfilteredNarrowsIff | ldp_common/viewmodel.py:96-104 | without filters some graph always satisfies the group, and the condition is occurrence in the triple patterns alone |
| Sparql.PatternNarrowsIff | ldp_common/viewmodel.py:96-104 | for a given triple pattern of a head, more parameters narrow what it builds exactly when the extra ones in it occur in the group's patterns, or it builds nothing even with them |
| Sparql.HeadNarrowsByPatterns | ldp_common/viewmodel.py:96-104 | a head narrows if each of its triple patterns does |
| Sparql.MoreParamsFewerSolutions | ldp_common/viewmodel.py:96-104 | with the extra parameters in the triple patterns every solution with them is one without them, filters included |
| Sparql.HeadOnlyParam | ldp_common/viewmodel.py:96-104 | a parameter of the head alone: unsupplied the view is empty, supplied it is not |
| Sparql.PlainConstructIff | ldp_view_engine/engine.py:115-121 | what a template builds at all: the legal triples that a head pattern stands for under a row that matches every triple pattern and makes every filter true |
| Params.BindParams | ldp_common/viewmodel.py:96-128 | the loop binds the declared part of what was supplied, or fails on an invalid value |
| Params.RebindsIff | ldp_common/viewmodel.py:96-128 | binding again with one more name supplied gives the same exactly when that name is not a declared, unsupplied parameter |
| UrlQuery.QueryRoundTrip | ldp_view_engine/rewrite.py:39-43 | every list of pairs is decoded from its percent-encoded query string, empty names and values included |
| UrlQuery.QuoteKeeps | ldp_view_engine/rewrite.py:41-43 | letters, digits, `_`, `.`, `-` and `~` stand for themselves |
| UrlQuery.QuoteEscapes | ldp_view_engine/rewrite.py:41-43 | any other byte is a percent sign and two upper-case digits |
| UrlQuery.EscapeIsRead | ldp_view_engine/engine.py:209-224 | an escape is read in either letter case |
| UrlQuery.PlusIsSpace | ldp_view_engine/engine.py:209-224 | a plus is read as a space, and what is no escape as itself |
| UrlQuery.PartIsRead | ldp_view_engine/engine.py:209-224 | the first `=` ends a name, a part without one is a name with an empty value, and an empty part is none |
| UrlQuery.LastValueWins | ldp_view_engine/engine.py:209-224 | of a repeated name the last value is taken |
| Proxy.RewriteUpstreamUris | ldp_view_engine/rewrite.py:16-53 | the three loops replace exactly the stored resources of the data source, as subject or object |
| Proxy.CarriesRequestIff | ldp_view_engine/engine.py:209-228 | a proxy URL leads back to its view, target and bound parameters exactly when the view's id stands in a path for itself, and no declared parameter is named `uri` or it was supplied with the target itself |
| Proxy.RouteIff | ldp_view_engine/engine.py:138-139 | the server finds the id in a proxy URL's path exactly when it holds no `?`, `#` or percent escape |
| Proxy.MarkInId | ldp_view_engine/rewrite.py:39-45 | the proxy URLs of a view stored as `a?b` lead to the view `a` |
| Proxy.RewritingMergesNothing | ldp_view_engine/rewrite.py:46-53 | on a result without prior proxy URLs rewriting keeps the number of triples |
| Proxy.ProxyUrlsDereference | ldp_view_engine/engine.py:198-257 | every proxy URL of a delivery, on an unchanged store, leads back to the view, repeats the identical query, finds its target and streams it, and is refused for a target under `.system/`; with an id that does not stand for itself it leads elsewhere; when anything is streamed at all is BlobGate.GetBlobIff |
| BlobGate.GetBlobIff | ldp_view_engine/engine.py:198-257 | a resource is streamed exactly when the view is linked, stored and allowed, the request names the resource, it lies under the data source's base and not under its `.system/`, the parameters bind, the query builds, some triple of the result has the resource as subject or object, and there is something to stream |
| BlobGate.BlobRefusals | ldp_view_engine/engine.py:204-246 | otherwise the answer is that of the first check that fails: 403, 400, 404, 422, 403, 422, 404 |
| BlobGate.NothingBeyondTheResult | ldp_view_engine/engine.py:236-243 | whatever URL is requested, nothing is streamed that the result of a view linked to the token does not mention |
| BlobGate.GetViewIff | ldp_view_engine/engine.py:94-135 | a view is delivered exactly under the same checks, with each stored resource of the data source replaced by its proxy URL as subject and as object, and no other term changed |
| JsText.StrIsRead | testing_client/rdf.js:187-213 | every string printed on one line is read back, before anything but a quote |
| JsText.LongIsRead | testing_client/rdf.js:197-213 | every string printed in triple quotes is read back, whatever follows |
| Cursor.ReadBodyAt | testing_client/rdf.js:187-205 | the reading loop, with its escapes, is the function of the remaining text |
| Readers.ParseNTriplesText | testing_client/rdf.js:46-127 | the N-Triples parser's loops compute the parsing function |
| Readers.ParseTurtleText | testing_client/rdf.js:138-317 | the Turtle parser's mutually recursive loops terminate and compute the parsing function; what that is of a document is TurtleDocs.TurtleDocIsRead |
| Readers.TurtleReader.ReadPredObjList | testing_client/rdf.js:275-285 | the loop over predicates moves the cursor, counts nodes and pushes triples as specified, or raises |
| TurtleTerms.NumeralIsReadIff | testing_client/rdf.js:214-227 | every number of the Turtle grammar is read to the literal of that lexical form, typed xsd:integer, xsd:decimal or xsd:double by its production, exactly when its exponent does not follow its point at once |
| TurtleTerms.PointThenExponent | testing_client/rdf.js:221-222 | `1.e0` is read as the integer 1, and the rest is left |
| TurtleTerms.NameIsReadIff | testing_client/rdf.js:177-186 | a prefixed name is read to its namespace and local name, escapes undone, exactly when the local part holds no mark that ends names |
| TurtleTerms.EscapeIsRead | testing_client/rdf.js:159-159 | the five escapes that stand for control characters, and every other for itself |
| TurtleTerms.CodePointIsRead | testing_client/rdf.js:158-158 | four or eight digits are a code point |
| TurtleDocs.ObjIsRead | testing_client/rdf.js:247-259 | numbers, `true` and `false`, IRIs, names, labels, and strings in all four quotes with a tag or a datatype are read to what they mean |
| TurtleDocs.TurtleDocIsRead | testing_client/rdf.js:138-317 | for every document of directives in all four forms and of triples with predicate and object lists, between blanks and comments, the parser returns the triples it means, in order |
| TurtleDocs.NameIsDirectiveIff | testing_client/rdf.js:303-303 | a subject's name is taken for a directive exactly when its prefix starts with the word `base` or `prefix` |
| TurtleDocs.SubjectNamedBase | testing_client/rdf.js:286-298 | the triple of a subject named `base:x` is lost |
| TurtleDocs.SemicolonTwice | testing_client/rdf.js:275-285 | two semicolons in a row raise |
| ViewTurtle.PrintView | testing_client/rdf.js:348-359 | the printing loop writes the specified text |
| ViewRoundTrip.PrintedViewParses | testing_client/rdf.js:348-359 | for every view and base, parsing what was printed yields exactly the view's triples in order |
| ViewRoundTrip.NodesDistinct | testing_client/rdf.js:228-233 | minted nodes are distinct, so parameters are kept apart |
| NTriplesDocs.ReadsPieces | testing_client/rdf.js:86-104 | text with escapes reads as its characters and code points |
| ParsersAgree.NTriplesIsMeaning | testing_client/rdf.js:46-127 | the N-Triples parser returns the meaning of every well-formed document with white space after its blank subjects |
| ParsersAgree.ParsersReturnTheSame | testing_client/rdf.js:134-317 | with no white space before a datatype either, the Turtle parser returns the same triples, apart from the predicate's type tag |
| ParsersAgree.LineLabelIff | testing_client/rdf.js:74-78 | a blank-node label is read as such exactly when white space, a dot or nothing follows |
| ParsersAgree.GapRaisesIff | testing_client/rdf.js:206-213 | white space after `^^` makes the Turtle parser raise, and nothing else about a valid literal does |
| MinimalSpace.NTriplesRightIff | testing_client/rdf.js:46-127 | over whole documents the N-Triples parser returns the meaning exactly when white space follows every blank-node subject |
| MinimalSpace.CoincidenceNTriples | testing_client/rdf.js:46-127 | the equivalence fails for a literal glued to a swallowed predicate: a comment can complete the triple |
| MinimalSpaceTurtle.TurtleRightIff | testing_client/rdf.js:138-317 | over whole documents the Turtle parser returns the meaning exactly when white space follows every blank-node subject and precedes no datatype |
| MinimalSpaceTurtle.CoincidenceTurtle | testing_client/rdf.js:138-317 | the equivalence fails for a swallowed predicate in which a dot is followed by the word of a directive |
| MinimalSpaceTurtle.UnspacedDocument | testing_client/rdf.js:74-78 | a blank node directly followed by its predicate, whatever IRI that is: the N-Triples parser loses the triple, and the Turtle parser does not return it either, unless a dot in the predicate is followed by what opens a statement |
| MinimalSpaceTurtle.GapDocument | testing_client/rdf.js:206-213 | one triple with white space after `^^` is read by the N-Triples parser alone |
| ParsersAgree.MinimalWhiteSpace | testing_client/rdf.js:105-127 | what exactly each parser returns for it when the predicate holds no dot: nothing, and a triple with an empty number |

## Left out

- HTTP transport, routing, content negotiation, byte streaming, discovery listings and configuration: input and output, no deep property.
- Token secrecy, digests and header parsing: entity tags stand for isomorphism classes, tokens for their records; the 401, 403 and 422 answers of a delivery before it is recorded are the label Abandon, which may come at any step.
- Turtle serialization and parsing inside the server: taken as inverse, up to isomorphism where a graph travels; canonicalization and SHA-256 are not part of this model.
- Paths that a URI makes absolute (a leading slash after the base), or that step above the storage root and back into it by its own name, are treated as leaving the storage root.
- Concurrency of the LDP data plane: containment is stated for serialized requests, since the parent's update is a read and a write without a spanning lock.
- The choice a graph lookup makes among several objects is a parameter of the LDP model and unconstrained in the delivery model.
- Extracting a policy from its graph and the float arithmetic of intervals: policies are values, times are whole microseconds.
- Container kinds synthesized under `.system/`, and pagination: easy members.
- The SPARQL parser: a template's group is given as its syntax tree, with the injected block as its first element; the text-level results are about tokens and positions. EXISTS, property paths, OPTIONAL and sub-queries in templates are not part of this model.
- Blank nodes in a CONSTRUCT head: each solution would mint its own.
- Unicode classes in the scanner (letters, digits, spaces, case folding) are parameters that agree with ASCII; the term serializer is a parameter whose results are IRI references or closed quoted strings.
- UTF-8 in proxy URLs is a codec that decodes what it encodes and leaves ASCII alone.
- Collections in the Turtle parser: its loop reads objects until a closing parenthesis, and a dot is read as an empty number without moving on, so the source's loop does not end on a text such as `(.`; the model raises instead.
- Lone surrogates in the browser's strings: texts are sequences of Unicode scalar values.
- Turtle text of grants and policies, and the targeted extractors of the client: the first two use the printers already covered, the last are never used on views.
- ParsersAgree.ParsersReturnTheSame: asks for white space after a blank-node subject and none before a datatype, which is needed (MinimalSpaceTurtle.TurtleRightIff), and for absolute IRIs or no base, since the Turtle parser resolves what the other takes as it is.
- MinimalSpace.NTriplesRightIff: leaves out documents with a literal glued to a swallowed predicate; there the parser may be right by coincidence, as MinimalSpace.CoincidenceNTriples shows.
- MinimalSpaceTurtle.TurtleRightIff: leaves out documents with a swallowed predicate, or object, in which a dot is followed by `#`, `[`, `_` or a directive's word; there the parser may be right by coincidence, as MinimalSpaceTurtle.CoincidenceTurtle shows.
- ParsersAgree.MinimalWhiteSpace: is about predicates without a dot; MinimalSpaceTurtle.UnspacedDocument is about all of them.
- Readers.ParseTurtleText: collections raise in the model, for the reason above.
- TurtleDocs.TurtleDocIsRead: nested blank-node property lists are not in its documents, though ViewRoundTrip.PrintedViewParses has them; string escapes are in those of ParsersAgree.ParsersReturnTheSame and in TurtleTerms.EscapeIsRead.
- QueryGrammar.EveryTextIsLexed: a text that ends in a backslash inside a string is left out, whose last token the source lets end past the text.
- BlobGate.GetBlobIff: a store that does not change between the steps of one request.
- Proxy.ProxyUrlsDereference: a client that normalizes dot segments would send a view id of `.` or `..` elsewhere; URLs are sent as they are written here.
- LdpRuns.ContainmentStaysSound: asks that a body which is not managed as a container's states no containment of its own, since the handlers store such a body as it is, and that a DELETE's name is its own, which MisnamedDeletes.DeleteSoundIff makes exact.
- LdpRuns.EveryResourceReachable: asks besides that a PUT creates under an existing container, since the handlers create no intermediate ones, that no name holds both a graph and bytes, that a container is not put back as something else, and that its membership predicate is not `ldp:contains`.
- DeliveryTight.CeilingIsTight: reaches the bound on a grant's counter; a run for the view's, with the same steps on the other record, is not given.
- Sparql.PatternNarrowsIff: is about one triple pattern of a head; of a head of several a triple lost by one may be built by another, and only the sufficient direction is proved.
- StateClauses.StripsExactlyIff: a clause is one whose graph is written as an IRI reference; prefixed names, relative references and escapes that denote the state graph are not resolved.
- EnforcementClient.Bump: the others' interference comes in batches before each half of a request, and texts travel unchanged; the state machine has the general case.
