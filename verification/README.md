# Doplane, modelled and proved

Doplane is a Kubernetes operator that drives external resources through a provider
runner. A `DoComposite` compiles a definition's templates into `DoResource` children whose
properties refer to one another; each `DoResource` resolves its references, creates or
patches its external object through a runner Job, and is torn down in dependency order.

This project states what that machinery does and proves what it is for, in four parts:

1. **Templates, paths and property trees** (`Strings`, `Json`, `Paths`, `Trees`, `Markers`,
   `Templates`, `Outputs`, `Agreement`, `Expressions`, `Pitfalls`, `Compiler`, `CompileLink`, `PropertyHeap`,
   `Linker`).
   The compiler of `${...}` expressions, the linker that fills references in later, the
   evaluator that resolves the same expressions directly, the path language, and the
   updates of decoded trees in place on the heap. Main result: compiling and then linking,
   in any order, is direct evaluation, exactly when every string keeps its text and its type.
2. **The reference graph** (`Graph`, `Cycles`, `Teardown`, `TeardownRuns`, `Rings`,
   `Propagation`). Bounded searches, blocking teardown, value propagation. Main results:
   teardown goes in order and never deadlocks, as long as what lies on a cycle is within the
   search limit; propagation converges after as many rounds as the graph is deep, or twice as many
   when external objects have vanished.
3. **Protocols of the reconciler** (`Jobs`, `Ledger`, `Creating`, `Replacement`). Run-or-adopt
   Jobs, the create path with crashes and failed writes, replacement. Main results: at-most-once
   execution, a ledger of every external resource made, no double provisioning,
   create-before-delete.
4. **Stateful components** (`SchemaCache`, `Revisions`, `Redaction`). The single-flight cache
   under every interleaving, definition revisions over every run, the redacting writer.

Algorithms that the source runs as loops over mutable state are methods and classes here,
each proved equal to a specification function; the laws are lemmas about those functions.
The API server is an atomic store, the provider and the network are inputs of the methods
or events of the machines.

## Findings

Places where the code does less than its documentation suggests; each has a lemma.

- A parameter whose text ends in `$`, right before a sibling expression, turns the placeholder
  into an escape, and the word `DOPLANE_ESC` between two sibling expressions collides with the
  marker of the compiler. The value is lost in both cases (`Pitfalls.DollarParameterLosesValue`,
  `Pitfalls.MarkerWordLosesValue`): with `currency` set to `US$`,
  `${params.currency}${resources.db.outputs.id}` never shows the id (`Pitfalls.CurrencyLosesId`),
  unless the id is itself the word `{value}`.
  `Agreement.EvaluatorsAgree` gives the exact condition for a string, `Agreement.TextsAgree` for
  a string and a value.
- A string made of one sibling expression and parameters that render to nothing loses the
  conversion to text: the linked value is the raw one, which differs exactly when it is not text
  (`Pitfalls.EmptyParameterKeepsType`, `Pitfalls.PrefixKeepsPort`; in general
  `Agreement.ValuesAgree`, `CompileLink.CompileThenLinkIsDirect`).
- Teardown can wedge. A ring of terminating resources is torn down if and only if it has at most
  64 names (`Rings.RingTornDown`); in general, resources each of which has a dependent that it
  reaches back only in 64 or more steps hold one another back (`Rings.LongCyclesWedge`). The limit
  counts names, not steps: two resources that reference each other, and the same names before,
  can be torn down if and only if these are at most 62 (`Rings.CrowdedPairTornDown`).
- A ring is reported as a cycle if and only if it has at most 33 names (`Rings.RingReported`);
  no resource whose shortest cycle has 34 names or more gets a report (`Cycles.LongCyclesMissed`).
  A cycle of two names is missed as well when a detour of 32 other names leads to the second one
  first, and of no other length (`Rings.DetourReported`).
- A refused id is terminal for its generation if and only if the object has no external-name
  annotation (`Ledger.RefusalHolds`): one failed adoption read replaces the reason that stops the
  next create (`Ledger.FailedAdoptionRetries`). So does any other reconcile that ends with a
  reason of its own, such as a pause (`Ledger.OverwrittenRefusalRetries`) or an unapproved
  replacement (`Replacement.RefusalForgotten`).
- A resource whose type cannot be read is never patched (`Propagation.UnreadableKept`), so an edit
  is never applied (`Propagation.EditNeverApplied`). One that has an id gets the resolved
  properties if and only if its type can be read or it was given them before and its object exists
  (`Propagation.PropagationReaches`); one still to be created, if and only if its references
  resolved to the same at its create (`Propagation.UnreadableApplied`).
- An external name that was read and not found is not read again before it is overwritten: when an
  older operation's Job makes a resource of that name meanwhile, the next create overwrites the
  name and the resource is lost with its Job, though no write fails
  (`Ledger.LateNameOverwritten`). When the reconcile's own Job made it and expires before the create
  looks for it, a second one is made (`Ledger.ForgottenNameDoubles`).

## Model

| member | source | states |
|---|---|---|
| Paths.ParsePathLoop | internal/runnerops/path.go:37-76 | the index loop of the parser computes the grammar of paths |
| Paths.ParseBracketAt | internal/runnerops/path.go:80-111 | a bracket segment, quoted or numeric, is read from the given index up to the index after its `]`, or refused |
| Paths.ParseQuotedAt | internal/runnerops/path.go:83-95 | the quoted loop returns the unescaped key and stops at its closing quote |
| Paths.AppendKeyRoundTrip | internal/runnerops/path.go:115-125 | appending any key (empty, dotted, quoted, backslashed) to any empty or valid path parses to that path's segments followed by the key |
| Paths.AppendIndexRoundTrip | internal/controller/composite_render.go:185 | appending an index that fits the platform's integer parses to the path's segments followed by the index |
| Paths.PathRoundTrip | internal/runnerops/path.go:37-125 | the path string of a position other than the root parses back to exactly that position if and only if every index fits the platform's integer |
| Paths.PathStringInjective | internal/runnerops/path.go:37-125 | distinct positions have distinct path strings |
| Paths.PathSpelling | internal/runnerops/path.go:113-125 | how positions are spelled: keys after dots, indexes in brackets, other keys quoted in brackets |
| Paths.OversizedIndexRefused | internal/runnerops/path.go:102-109 | a larger index, which the compiler's own integer never reaches, is refused after any valid path |
| Trees.GetPathLoop | internal/runnerops/path.go:226-253 | the cursor loop reads the value at the parsed position |
| Trees.GetAfterSet | internal/runnerops/path.go:129-177 | after a successful set, the position holds the value |
| Trees.SetFrame | internal/runnerops/path.go:129-177 | a set, successful or not, changes nothing at a position that is neither a prefix nor an extension |
| Trees.SetsCommute | internal/runnerops/path.go:129-177 | two sets at incomparable positions that both succeed commute, and both succeed in either order |
| Trees.SetSucceeds | internal/runnerops/path.go:129-177 | a set succeeds if and only if its position ends at a key of an object or at an existing element, or leaves what is there at a missing or null entry of an object, by keys only |
| Trees.DeleteClears | internal/runnerops/path.go:183-222 | after a deletion the position holds nothing or null, and the result says whether there was something |
| Trees.DeleteRemoves | internal/runnerops/path.go:183-222 | an object's entry is gone afterwards, an array's element is null |
| Trees.DeleteFrame | internal/runnerops/path.go:183-222 | a deletion changes nothing at an incomparable position and never refills a cleared one |
| Trees.DeleteKeepsArrays | internal/runnerops/path.go:183-222 | arrays on the way to the deleted position keep their length |
| PropertyHeap.SetPathInPlace | internal/runnerops/path.go:129-177 | the walk through maps and slices on the heap leaves exactly the tree of the update, error or not, touches only the tree's own objects, and keeps it free of sharing |
| PropertyHeap.SetSegments | internal/runnerops/path.go:137-176 | the loop of the walk: missing maps are created on the way, the last segment is written |
| PropertyHeap.Advance | internal/runnerops/path.go:137-176 | one step down: onto the child, or onto a map created for a missing entry, or refused; what is left to set there is what was left to set above |
| PropertyHeap.DeletePathInPlace | internal/runnerops/path.go:183-222 | the deletion on the heap leaves exactly the tree of the deletion |
| PropertyHeap.Decode | internal/controller/doresource_controller.go:457-468 | decoding allocates a tree of its own that stands for the JSON value |
| Markers.MarkEscaped | internal/controller/composite_render.go:215-216 | escaping every opening and replacing the escapes is replacing the openings |
| Markers.ExpansionExact | internal/controller/references.go:111-116 | expanding a template fills its holes with the value exactly when no text before a hole ends in `$` |
| Markers.ExpansionExactAt | internal/controller/references.go:111-116 | for one value: exactly when no text before a hole ends in `$`, or the value is itself the word `{value}` |
| Markers.CollisionSurvives | internal/controller/composite_render.go:262-281 | after a collision with the escape marker a NUL survives every later pass, whatever the value |
| Templates.RenderStringLoop | internal/controller/composite_render.go:215-283 | the loop over the matches, with its builder, early returns and single sibling expression, computes the compiled string |
| Templates.CheckUnterminated | internal/controller/composite_render.go:310-332 | the scan over the matches accepts exactly the texts whose every opening lies in a match, and these are the texts the scanner takes apart |
| Templates.EvaluateRound | internal/controller/composite_render.go:230-257 | one round of the loop: parameters, self fields, sibling expressions and the errors between them |
| Outputs.RenderOutputStringLoop | internal/controller/composite_outputs.go:127-158 | the direct evaluator's loop computes the interpolated string, the wait for a source, or the error |
| Agreement.EvaluatorsAgree | internal/controller/composite_render.go:215-283 | for every NUL-free string, compile-then-expand renders to what direct resolution renders to, for every value of the field, if and only if no text before a placeholder ends in `$` and none collides with a marker |
| Agreement.TextsAgree | internal/controller/references.go:99-116 | for one value of the field: both render to the same text if and only if nothing collides, and no text before a placeholder ends in `$` or the value is itself `{value}` |
| Agreement.ValuesAgree | internal/controller/references.go:99-104 | for every compiled string and every value, the linked and the direct value are equal if and only if the text is kept, and the template was kept, the string is one whole expression, or the value is text |
| Agreement.DirectlyResolved | internal/controller/composite_outputs.go:127-194 | once the sibling's field has a value, the direct evaluator returns the pieces around it, unescaped |
| Agreement.LiteralsAgree | internal/controller/composite_outputs.go:127-158 | strings without sibling expressions mean the same to both evaluators |
| Agreement.EscapedTextRendersToItself | internal/controller/composite_render.go:32-44 | writing `$${` for every `${` makes any text render to itself, compiled or directly |
| Expressions.NameRenders | internal/controller/composite_render.go:244-245 | `${self.name}`, blanks inside and text around it, is the composite's name in that text, in both evaluators |
| Expressions.NamespaceRenders | internal/controller/composite_render.go:246-247 | `${self.namespace}` likewise is its namespace |
| Expressions.ParamRenders | internal/controller/composite_render.go:235-243 | `${params.key}` is the parameter itself when it is the whole string, and its text otherwise |
| Expressions.ScalarsRead | internal/runnerops/path.go:257-267 | how null, booleans, numbers and strings read inside a text |
| Expressions.FieldRenders | internal/controller/composite_render.go:248-301 | `${resources.name.id}` and `${resources.name.outputs.key}` compile to the child's status field with the text around as template; directly, they wait until the field is there and are then put into the text |
| Expressions.MissingParam | internal/controller/composite_render.go:236-239 | a parameter that is not given is an error in both evaluators |
| Expressions.UnknownSource | internal/controller/composite_render.go:291-293 | so is a resource that the template does not have |
| Expressions.UnknownWord | internal/controller/composite_render.go:254-256 | so is any word that is no expression |
| Expressions.NeverClosed | internal/controller/composite_render.go:310-332 | so is an opening that is never closed |
| Expressions.TwoFields | internal/controller/composite_render.go:249-251 | two different sibling expressions in one string do not compile |
| Json.QuoteRoundTrip | internal/runnerops/path.go:270-276 | a JSON reader gets back every quoted string |
| Json.QuoteSafe | internal/runnerops/path.go:270-276 | no character that HTML or a line reader would act on is written as it is |
| Json.MarshalShape | internal/runnerops/path.go:270-276 | arrays are their elements between commas, objects their fields by increasing key |
| Strings.LessExactly | internal/controller/references.go:229-238 | the order of names is the lexicographic one |
| Pitfalls.DollarParameterLosesValue | internal/controller/composite_render.go:262-281 | a parameter that ends in `$` right before an output of a sibling: the string compiles, is not faithful, and loses every value but `{value}` |
| Pitfalls.MarkerWordLosesValue | internal/controller/composite_render.go:262-281 | the word of the escape marker between two outputs: the string compiles and every value is lost |
| Pitfalls.EmptyParameterKeepsType | internal/controller/composite_render.go:275-281 | a parameter that renders to nothing leaves no template: the linked value differs from the direct one exactly when it is not text |
| Pitfalls.CurrencyLosesId | internal/controller/composite_render.go:262-281 | the first of these at a concrete definition: every value but `{value}` is lost |
| Pitfalls.WordLosesId | internal/controller/composite_render.go:262-281 | the second at a concrete definition: every value is lost |
| Pitfalls.PrefixKeepsPort | internal/controller/composite_render.go:275-281 | the third at a concrete definition and the number 5432 |
| Compiler.RenderValueLoop | internal/controller/composite_render.go:159-200 | the recursion that appends to one shared list of references yields the compiled tree and its references, in order |
| CompileLink.SetSite | internal/controller/references.go:99-104 | setting one reference's value in the partly linked tree links that site and nothing else |
| CompileLink.LinkAll | internal/controller/references.go:73-107 | linking a list of references, in any order and with repetition, fills exactly their sites |
| CompileLink.CompileThenLink | internal/controller/references.go:73-107 | linking the references of a compiled tree in any order succeeds and yields the tree with every string replaced by its linked value, nothing else touched |
| CompileLink.CompilesExactly | internal/controller/composite_render.go:159-200 | a tree compiles if and only if every string in it does |
| CompileLink.EvaluatesExactly | internal/controller/composite_outputs.go:90-122 | the direct evaluator yields a tree if and only if it yields a value for every string in it |
| CompileLink.CompileThenLinkIsDirect | internal/controller/composite_outputs.go:90-122 | for every template tree that compiles and whose referenced fields resolve, linking in any order yields the directly evaluated tree if and only if every string keeps the text and the type of its value; compiled strings that collide with a marker are not excluded |
| Linker.ResolveReferencesInPlace | internal/controller/references.go:73-107 | the loop that updates the decoded properties in place ends in the linked tree and the sources waited for, or refuses |
| Linker.LinkingExact | internal/controller/references.go:73-107 | the loop refuses if and only if some reference is hopeless or some value cannot be set; otherwise it waits for exactly the values that are not there and has set all the others |
| Linker.DeclaredOutputs | internal/controller/references.go:122-146 | with a schema at hand, a path into an output is known if and only if its first key is declared or is the id |
| Linker.DeleteState | internal/controller/delete_state.go:33-49 | the decoded state with every listed path deleted in place, or none when nothing is recorded |
| Linker.StripClears | internal/controller/delete_state.go:33-49 | whatever the order, overlap and syntax errors of the listed paths, each of them ends up resolving to nothing or null |
| Linker.StripKeepsScalars | internal/controller/delete_state.go:33-49 | every scalar not at or below a listed path is kept |
| Linker.StripFrame | internal/controller/delete_state.go:33-49 | every position neither above nor below a listed path keeps its whole value |
| Graph.ReachesLoop | internal/controller/references.go:281-306 | the breadth-first loop with its queue and visited set computes the bounded search |
| Graph.SearchMisses | internal/controller/references.go:287-305 | a search that fails within the limit leaves a closed set without a reference to the target |
| Graph.ReachesExact | internal/controller/references.go:281-306 | the search is sound, and exact when at most 64 names are involved (63 when looking for its own start) |
| Graph.ReachesShort | internal/controller/references.go:287 | the search finds nothing that is 64 or more steps away |
| Cycles.DetectCycleFrom | internal/controller/references.go:310-337 | the message is the cycle found, joined by arrows |
| Cycles.CycleFinder.Walk | internal/controller/references.go:312-335 | the recursive closure over the shared visited set computes the depth-first walk |
| Cycles.CycleIsWalk | internal/controller/references.go:310-337 | the reported path is a walk along references from the start back to the start, of at most 33 names |
| Cycles.DetectCycleExact | internal/controller/references.go:310-337 | only genuine cycles are reported, and none is missed when at most 33 names are involved |
| Cycles.LongCyclesMissed | internal/controller/references.go:314-316 | a resource from which no walk of at most 33 steps leads back to itself gets no report, whatever the graph |
| Teardown.DependentsOf | internal/controller/references.go:186-205 | exactly the other resources that reference this one |
| Teardown.BlockingDependents | internal/controller/references.go:213-265 | exactly the live usages and the dependents that must go first |
| Teardown.Store.Reconcile | internal/controller/doresource_controller.go:310-356 | a teardown reconcile deletes, refuses or waits as specified, and changes nothing else |
| Teardown.NoDeadlock | internal/controller/references.go:213-241 | in every nonempty set of terminating resources closed under dependents and with no live usages, some resource is not held back; only those on a cycle are asked to be within the search limit |
| Teardown.MutualTeardown | internal/controller/references.go:229-238 | of two terminating resources that reference each other exactly the one with the greater name may go first |
| TeardownRuns.TeardownActs | internal/controller/doresource_controller.go:310-356 | one reconcile, in both directions: who is acted on, that the provider is asked if and only if there is an id and the policy is not Orphan, and that the finalizer goes unless the provider refused |
| TeardownRuns.BlockedExactly | internal/controller/references.go:213-241 | within the search limit a resource is held back if and only if a live usage targets it or a dependent does not yield |
| TeardownRuns.TeardownCompletes | internal/controller/doresource_controller.go:310-356 | with succeeding deletes, as many rounds as there are resources, each in any order, remove them all, cycles within the limit included, and nothing else |
| TeardownRuns.TeardownOrder | internal/controller/references.go:213-241 | whenever a teardown goes to the provider or releases a finalizer, no live usage targets the resource, and each existing dependent is terminating and has no id or lies on a cycle with it and has a smaller name |
| TeardownRuns.RunOrder | internal/controller/doresource_controller.go:310-356 | over every run on an acyclic graph, what references a resource and has an external object is released before it; finalizers go only on Orphan, without an id, or right after a delete that succeeded or found nothing; and no delete is asked of the provider on Orphan or without an id |
| TeardownRuns.RunHistory | internal/controller/doresource_controller.go:310-356 | the same over every run on any graph, cycles excepted by the name order |
| TeardownRuns.MapGraphNeighbors | internal/controller/doresource_controller.go:548-568 | an event enqueues exactly the dependents, and the sources of a terminating resource |
| TeardownRuns.WakeUpsTerminate | internal/controller/doresource_controller.go:548-568 | on an acyclic graph a chain of wake-ups by non-terminating resources is a walk along references read backwards, never repeats a resource, and is bounded by the number of resources |
| Rings.LongRingWedges | internal/controller/references.go:287 | in a ring of 65 or more names every resource is held back, whatever else exists |
| Rings.LongCyclesWedge | internal/controller/references.go:213-241 | resources each of which has a dependent that it reaches only in 64 or more steps are all held back, whatever the rest of the graph |
| Rings.RingTornDown | internal/controller/references.go:213-241 | a ring of terminating resources has one that may go if and only if it has at most 64 names |
| Rings.RingReported | internal/controller/references.go:310-337 | a ring is reported, from any of its names, if and only if it has at most 33 names |
| Rings.CrowdedPairTornDown | internal/controller/references.go:281-306 | two terminating resources that reference each other after the same leaf names: one may go if and only if the names are at most 64 in all, so the bound of NoDeadlock is sharp for cycles of two as well |
| Rings.DetourReported | internal/controller/references.go:310-337 | a cycle of two with a detour to its second name: reported if and only if the names are not exactly 34, so the bound of DetectCycleExact is sharp for cycles of two as well |
| Propagation.Controller.Reconcile | internal/controller/doresource_controller.go:123-269 | one reconcile resolves, compares the applied hash, and creates, patches, reads, or forgets an object that is gone; with refused inputs or a failing provider it changes nothing |
| Propagation.NothingBeforeSources | internal/controller/references.go:43-67 | a reconcile that changes a resource finds every value it refers to and no reported cycle; what it applies, if anything, are the properties with these values set |
| Propagation.HaltsExactly | internal/controller/references.go:43-67 | a reconcile goes on if and only if the properties are an object, no cycle is reported, every value is there and all can be set |
| Propagation.CreatedFromSources | internal/controller/doresource_controller.go:208-210 | a resource without an id is created from exactly that, or nothing changes |
| Propagation.ForgottenExactly | internal/controller/doresource_controller.go:224-262 | a recorded id is forgotten, with all that was recorded, if and only if a reconcile that goes on reads that the object is gone |
| Propagation.PropagationConverges | internal/controller/doresource_controller.go:179-269 | on an acyclic graph a resource at depth d is settled after d + 1 rounds, or 2d + 2 if objects have vanished before, in any order and with any number of failing reconciles in between, and stays so; if its references resolve and its type can be read, the last applied properties are the resolved ones |
| Propagation.PropagationReaches | internal/controller/doresource_controller.go:208-223 | a resource that starts with an id has the resolved properties applied in the end if and only if its type can be read, or it started with them applied and its object there |
| Propagation.UnreadableKept | internal/controller/doresource_controller.go:217-223 | over every run the record of a resource whose type cannot be read stays as it is, and its object too unless it vanishes |
| Propagation.UnreadableApplied | internal/controller/doresource_controller.go:208-223 | one created during the run keeps what its create applied: these are given properties if and only if its references resolved to them then |
| Propagation.EditNeverApplied | internal/controller/doresource_controller.go:217-223 | one resource of such a type, edited after its create: after any number of rounds it is settled, its references resolve, and its properties are not applied |
| Propagation.LinkFrame | internal/controller/references.go:73-107 | linking depends on the listed sources only |
| Propagation.ResolvableApplies | internal/controller/references.go:43-68 | on an acyclic graph the cycle check never stops a resource whose references resolve |
| Propagation.IdKept | internal/controller/doresource_controller.go:208-268 | a recorded id, and its object, are kept over every run in which that object does not vanish, whatever else does |
| Jobs.SameJob | internal/pulumido/job.go:379-398 | two operations share a Job exactly when verb, owner, document and the salt that applies agree |
| Jobs.NobodysJob | internal/pulumido/job.go:379-398 | an operation without an owner, a schema fetch apart, shares its Job with no other |
| Jobs.Cluster.ExecuteOp | internal/pulumido/job.go:404-509 | every call makes exactly the steps of its script, a run of the Job machine; it reports a failure if and only if it found the Job failed, a result if and only if it found it completed and could read the log; an unreadable log keeps the Job |
| Jobs.OutcomesEarned | internal/pulumido/job.go:483-509 | over every run no more results are secured than Jobs completed or pods ran, and no more failures reported than Jobs failed, but for finished Jobs that were not removed |
| Jobs.ReadTwice | internal/pulumido/job.go:431-451 | that proviso is needed: a completed Job whose cleanup fails is a result of every later call |
| Jobs.AtMostOnce | internal/pulumido/job.go:404-509 | executions never exceed one more than results secured, failed Jobs consumed and Jobs expired, in every run with crashes, timeouts, unreadable logs and failed cleanups |
| Jobs.AtMostOnceEach | internal/pulumido/job.go:379-509 | the same for each owner and operation, all of them interleaved |
| Jobs.UnreadIsAdopted | internal/pulumido/job.go:496-502 | a completed Job whose log was not read stays and is never run again until it is read or expires |
| Ledger.StepAccounts | internal/pulumido/job.go:404-509 | one step keeps an accounted id accounted if and only if it is none of the named windows, and brings no lost one back |
| Ledger.StatusKept | internal/controller/doresource_controller.go:237-266 | a recorded id is kept until a check finds the resource gone and that is stored |
| Ledger.RecordedIsChecked | internal/controller/doresource_controller.go:237-266 | the reconcile of a recorded id checks it, and forgets it if and only if the resource is gone |
| Ledger.CreateLedger | internal/controller/annotations.go:95-189 | over every interleaving each resource the create path made is recorded, in flight, held by an unconsumed Job or found gone and not made since, if and only if no named window lost it, the overwriting of a name made late included |
| Ledger.NoDoubleProvisioning | internal/controller/annotations.go:95-132 | over every run in which the operation stays and no window loses or forgets a live resource, whatever crashes, timeouts and failed writes, at most one resource made is live, those held by Jobs and those made again under a name found gone included |
| Ledger.RecordedIdsAgree | internal/controller/annotations.go:95-132 | in every run, edits and losses included, all ids recorded or in flight, and not found gone, are the same one, as long as no resource of the annotated name is made behind a reconcile that has not found it |
| Ledger.LateNameOverwritten | internal/controller/annotations.go:105-131 | the proviso is needed: from every new object with an external name there is a run in which two ids are kept, the name is overwritten, and a live resource is lost |
| Ledger.ForgottenNameDoubles | internal/controller/annotations.go:105-116 | the window of the forgotten name is needed: a create that finds its Job expired makes a second live resource, both of them accounted for |
| Ledger.RefusedStaysTerminal | internal/controller/annotations.go:85-113 | a refused id stops every further create of its generation, also when a propagated value or a rotated secret changes the operation, in every run without an edit or another reconcile's reason, if there is nothing to adopt or every adoption read says so |
| Ledger.FailedAdoptionRetries | internal/controller/annotations.go:152-154 | with an external name, a failed adoption read and then one that finds nothing end in another create |
| Ledger.RefusalHolds | internal/controller/annotations.go:85-160 | no run without an edit or another reconcile's reason, changes of the operation within the generation included, makes anything more if and only if the refused object has no external name |
| Ledger.OverwrittenRefusalRetries | internal/controller/doresource_controller.go:101-113 | once another reason, such as a pause, replaced the refusal, every further id can be made, annotated or not |
| Creating.Reconciler.ReconcileCreate | internal/controller/annotations.go:95-132 | one call makes exactly the reads, calls and writes of its script, in order, conditions included, and they are a run of the ledger's machine |
| Creating.Reconciler.Consume | internal/pulumido/job.go:483-509 | a finished Job is cleaned up once its outcome is secured; an unreadable success keeps it |
| Creating.Reconciler.Record | internal/controller/annotations.go:124-131 | the annotation is written first, and the status with its condition only once that write is confirmed |
| Creating.Reconciler.Await | internal/pulumido/job.go:457-481 | polling ends with the finished Job, or with the Job gone or left for the next attempt |
| Creating.Reconciler.MarkSynced | internal/controller/doresource_controller.go:360-390 | the id is recorded and a refusal forgotten in one write |
| Creating.Reconciler.MarkSyncFailed | internal/controller/doresource_controller.go:396-416 | the failure replaces the reason recorded before: only a refused id leaves a refusal of the generation read |
| Creating.FinishedJobRecovered | internal/pulumido/job.go:350-372 | whatever pods and writes do meanwhile, the next call that finds nothing to adopt and reads a finished Job annotates and records the id it made, as far as the writes succeed, and makes nothing when no other Job is at work |
| Creating.ReportDecides | internal/controller/annotations.go:116-124 | the call that reads a finished Job without a success records and makes nothing, and leaves a refusal of the generation if and only if the Job reported SecretInId and its log was read; a completed Job that cannot be read stays |
| Creating.OnlyRefusalsStop | internal/controller/annotations.go:85-124 | after that call no run without an edit or another reason makes anything more if and only if the Job reported SecretInId: any other failure is retried |
| Creating.AnnotatedIdAdopted | internal/controller/annotations.go:137-160 | after a crash between annotation and status the next call whose read finds the annotated id records it and forgets a refusal, or changes nothing if that write is lost |
| Replacement.Reconciler.ReconcileReplacement | internal/controller/replacement.go:56-115 | the calls and writes, in order, for every sequence of provider answers and of successful and failed writes |
| Replacement.ProtectedUntouched | internal/controller/replacement.go:59-72 | over every run of spec changes and reconciles, a protected object never approved for the generation it has is never touched |
| Replacement.RefusedUntouched | internal/controller/replacement.go:68-72 | after a refusal, reconciles of the approved or unprotected object do nothing, however many |
| Replacement.RefusalForgotten | internal/controller/replacement.go:59-72 | an unapproved reconcile and then an approval: the create runs again if and only if the reason of the first was stored |
| Replacement.CreateBeforeDelete | internal/controller/replacement.go:81-107 | only the old object is deleted, and outside the already-exists branch only once a new one is created, alive and annotated |
| Replacement.SwapGoes | internal/controller/replacement.go:84-115 | a swap that may run begins with the create, and ends in the status write if and only if a resource was made and annotated, whatever the retirement answers |
| Replacement.SwapRetires | internal/controller/replacement.go:105-112 | the old object is retired if and only if another one was made and annotated, and reported if and only if it could not be |
| Replacement.SwapFails | internal/controller/replacement.go:86-101 | a swap that made nothing says which failure it was |
| Replacement.RecordedIdDeleted | internal/controller/replacement.go:84-93 | the annotated id is deleted if and only if it is the old one and its identity collides |
| Replacement.SwapComplete | internal/controller/replacement.go:100-115 | once the status is written the new id is alive and recorded twice, and the old one is gone, the same, or reported orphaned |
| SchemaCache.Cache.LookUp | internal/pulumido/schema.go:98-114 | the first critical section: a hit, a flight to wait for, or a new flight |
| SchemaCache.Cache.Settle | internal/pulumido/schema.go:126-131 | the second critical section: a success is cached, the key is released |
| SchemaCache.SingleFlight | internal/pulumido/schema.go:95-138 | over every interleaving a key is pending exactly while it has a leader between publishing and cleanup, has at most one, and is then not cached |
| SchemaCache.NoStrandedWaiter | internal/pulumido/schema.go:116-138 | a waiter's flight is finished or has a leader at work on it, panics included |
| SchemaCache.ReturnsAgree | internal/pulumido/schema.go:95-138 | whoever gets a schema gets the cached one; everything else is the flight's error or the caller's own cancellation |
| SchemaCache.OwnKeyReturned | internal/pulumido/schema.go:95-138 | every call is answered for its own key |
| SchemaCache.CancelledByCancel | internal/pulumido/schema.go:103-111 | a call ends in a cancellation only if it was cancelled itself |
| SchemaCache.OnlyWaitersWait | internal/pulumido/schema.go:95-138 | a call can go on by itself if and only if it does not wait for a flight that is not finished |
| SchemaCache.WrittenOnce | internal/pulumido/schema.go:127-129 | the cache entry of a key never changes |
| SchemaCache.FetchesBounded | internal/pulumido/schema.go:95-138 | fetches per key are at most one more than those that failed, and that one is pending or cached |
| Revisions.Store.EnsureLatestRevision | internal/controller/composite_revision.go:88-135 | the newest snapshot when it equals the definition, else the next one under its name, with pruning |
| Revisions.Store.PruneRevisions | internal/controller/composite_revision.go:143-181 | exactly the old unreferenced revisions of the definition go, except those whose deletion fails |
| Revisions.Store.ResolveRevision | internal/controller/composite_revision.go:49-76 | a pin wins, a Manual composite stays on its revision, others track the newest; a foreign or missing revision is refused |
| Revisions.NewestIsCurrent | internal/controller/composite_revision.go:88-135 | the newest revision is a snapshot of the definition as it stands, and a new one is made only for a change |
| Revisions.AutomaticTracksNewest | internal/controller/composite_revision.go:49-62 | an unpinned Automatic composite, or a Manual one that never rendered, renders the newest snapshot |
| Revisions.HeldExactly | internal/controller/composite_revision.go:52-76 | a pin, or the recorded revision of a Manual composite, is rendered if and only if it exists and is of the own definition |
| Revisions.PrunedExactly | internal/controller/composite_revision.go:143-181 | exactly the unreferenced revisions of the definition that are ten numbers behind a new one go: the newest ten and other definitions stay |
| Revisions.RevNameText | internal/controller/composite_revision.go:114 | how a revision name is spelled |
| Revisions.RevNameInjective | internal/controller/composite_revision.go:114 | a revision name determines its definition and number, also when definition names contain `-v` |
| Revisions.NameDenotesOneSnapshot | internal/controller/composite_revision.go:88-181 | over every run a name never denotes two snapshots, even when pruned in between |
| Revisions.ManualKeepsSnapshot | internal/controller/composite_revision.go:49-76 | a Manual or pinned composite renders the same snapshot until its own spec moves |
| Revisions.HistoryBounded | internal/controller/composite_revision.go:143-181 | a creation whose prune deletes succeed leaves at most ten unreferenced revisions of the definition |
| Redaction.RedactingWriter.Push | internal/runnerops/secretinput.go:142-160 | one write emits the complete lines, redacted, keeps the rest, and flushes a huge partial line; when a write to the destination fails, the lines before it went out, its line is dropped, and the rest stays buffered |
| Redaction.RedactingWriter.Flush | internal/runnerops/secretinput.go:164-172 | the buffered partial line is emitted, redacted, once, or not at all when the destination fails |
| Redaction.WriteChunks | internal/runnerops/secretinput.go:138-172 | a stream written in chunks and flushed emits what the chunk function says |
| Redaction.ChunksDoNotMatter | internal/runnerops/secretinput.go:142-172 | however a stream with lines of at most 1 MiB is split, it comes out as its lines, each redacted |
| Redaction.NoSecretLeft | internal/runnerops/secretinput.go:70-75 | no value occurs in an emitted line, whatever the order and overlaps of the values, if none has a parenthesis or newline or is a part of "redacted" |
| Redaction.OccurrencesReplaced | internal/runnerops/secretinput.go:70-75 | a line is some pieces with values between them, and comes out as the same pieces with marks between them: only occurrences are replaced |
| Redaction.RedactChanges | internal/runnerops/secretinput.go:70-75 | a line is changed if and only if one of the values occurs in it |
| Redaction.BufferBounded | internal/runnerops/secretinput.go:142-160 | a write leaves at most 1 MiB buffered, and flushes exactly the longer partial lines |

## Left out

- renderComposite and renderChild, child names, labels, providers and renderOutputs: record building around renderValue and renderOutputValue.
- Error texts: errors are modelled by their kind; sorting references by path (composite_render.go) is immaterial here, since linking is proved for every order.
- JSON encoding and decoding are the identity on trees; numbers are kept as their text (UseNumber). Go's HTML escaping in marshalled text is modelled, invalid UTF-8 is not: strings are sequences of characters, and the 1 MiB limit counts characters.
- hashProps: SHA-256 is an injective abstraction; the applied hash is kept as the properties it was taken of, Job names as what is hashed.
- checkOutputPath reads the declared outputs of a source's schema from a table; schema retrieval there is best effort in the source and an absent table entry here. Unparseable recorded outputs are not modelled.
- Propagation.PropagationConverges: paused objects, secret inputs, schema validation failures, components and replacement are not part of that machine; the provider is deterministic though any call may fail and any object vanish, and nothing was adopted (adoption records the hash without patching).
- TeardownRuns.RunOrder: references, policies and ids do not change during the run, and no object is created; marking, pausing, usages and reconciles interleave freely.
- Teardown: the informer list is fresh; the finalizer of a terminating object is the last one, so releasing it removes the object; provider resolution before the teardown succeeds; component resources go through the same delete.
- Jobs: one call at a time runs per Job name, as reconciles of one object are serial; Jobs deleted by hand and the fallback for a terminating namespace are not modelled.
- Ledger: the object is live and not edited by hand in its external-name annotation; the provider never makes an id of the ledger again before it was found gone; updates, replacement and deletion are other modules.
- Ledger.CreateLedger: a resource that the provider made although its create reports an error is lost in the window of that report, as the source cannot know its id.
- Replacement: a crash in the middle restarts from the recorded id and is not modelled.
- SchemaCache: a fetch that ends its goroutine without panicking or returning is not modelled; the schema is an opaque value.
- Revisions: lists are fresh and reconciles serial; the deletion of a definition, which restarts its numbering, is not modelled.
- Redaction.WriteChunks: the destination accepts every write, as after a failed one the stream is not whole; single failing writes are in Push and Flush. The writer that serialises two streams is not modelled.
- Kubernetes clients, events, log texts, registry access, subprocesses, plugin caches and locks, CRD generation and typed registration: input and output, or record building.
