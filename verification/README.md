# A verified model of the azure-iot-ops CLI extension's core algorithms

The extension is mostly plumbing between a command line and Azure services. This project models the
parts that are algorithms, in Dafny, and proves what they promise for every input, every run or
every reachable state.

| module | models |
|---|---|
| `Json`, `Text`, `JsonLaws` | parsed JSON documents with ordered dicts, and what dict operations do by key and position; case folding, stripping and slash splitting |
| `SchemaTemplate` | the compiler from a Draft-07 schema to a config template or a metadata view |
| `SchemaRules`, `SchemaUnions` | what that compiler makes of each construct, read off the document |
| `SchemaTermination`, `SchemaValidation`, `SchemaValidity`, `SchemaAcceptance`, `SchemaProjection`, `SchemaProjectionExact`, `SchemaDepth`, `SchemaWarnings`, `WarningMerge` | what that compiler guarantees, read by value |
| `InPlace`, `InPlaceSteps`, `InPlaceRuns`, `InPlaceSeparate`, `InPlaceTemplates` | config mode with its in-place update of shared `properties` dicts: when it agrees with the reading by value |
| `DocLaws`, `InPlaceRules`, `InPlaceUnions` | what that run makes of each construct, whatever it has changed so far |
| `InPlaceSizes`, `InPlaceTermination`, `InPlaceReport` | when that run stops, and what it reports, agreement or not |
| `InPlaceExamples`, `InPlaceWarningExample`, `InPlaceUnsteady`, `InPlaceResized` | documents on which it does not agree |
| `EndpointConfig` | submitting a shown template back: unwrap, strip nulls, validate |
| `ResourceId`, `ResourceIdLaws`, `ResourceIdKeys`, `ResourceIdGrammar`, `ResourceIdSplit` | the ARM resource-id parser and printer, what its dictionary holds under every key, its exact language, and the split-based second parser |
| `Chunking`, `DotNotation`, `DataPoints` | greedy packing, nested-dict building, the keyed data-point list |
| `CsvPoints`, `CsvCells`, `CsvRoundTrip` | CSV export and import of data points and events: the tables, the value of every cell, and why the two are inverse |
| `TraceStream` | the length-prefixed trace reader over a socket that fragments at will |
| `Authentication`, `PodCache`, `VersionThrottle`, `Workflow` | four state machines: credential blocks, a read-through cache, a daily throttle, a lock-protected step board |

Conventions:

- An object is an insertion-ordered sequence of fields. `None` results, exceptions and early returns
  are outcomes (`TooDeep` is Python's RecursionError, `Malformed` an error raised on a keyword of the
  wrong JSON type).
- `SlimSchema(depth, …)` is the compiler with `depth` nested calls of itself available, merging dicts by
  value. That is what schema mode does. In config mode `_slim_allof` extends a `properties` dict where
  it is, and the dict may belong to the document; `InPlace.Slim` threads those changes, on documents
  whose dicts have an identity.
- Where the source updates things in place the model does too: `DotNotation.NestedDict`,
  `DataPoints.Dataset`, `CsvPoints.PointDict`, `TraceStream.Socket`, `Authentication.AuthProps`,
  `PodCache.Cache`, `VersionThrottle.IndexManager` and `Workflow.WorkflowDisplay` are classes whose methods are proved
  equal to a specification function, and the laws are lemmas about that function.

Results that differ from what one would first expect:

- Acyclic references do not make config mode stop. `{"$ref": A, "allOf": [...]}` extends the definition A
  itself for every later reference: the run can recurse without end (`AcyclicIsNotEnough`,
  `ResolvingLateDiverges`) or warn about fields a definition does not have (`LateWarning`). It agrees with
  the reading by value on steady documents (`InPlaceAgrees`; `SeparateTerminates` for a condition read off
  the document), and it leaves the document alone exactly when no call extends one of its dicts by
  anything new (`UntouchedIff`). Steadiness itself is sufficient, not necessary, because the
  order of fields counts: an extension after the last reading is never seen (`OrderMatters`).
- Stopping asks for less than agreeing. The run stops whenever the references stay acyclic once every dict
  an `allOf` extends also holds its members' entries (`InPlaceStops`). The unsteady documents with the
  extra warning are among those (`LateStops`), the diverging ones are not (`CyclicNotOrdered`).
- Config mode can raise RuntimeError on a document that the reading by value renders: a field of a
  definition that refers back to it and adds properties extends the very dict the loop is iterating over
  (`ResizedWhileIterating`, `RenderedByValue`).
- A template carrying a "required fields" warning can be accepted: an array item with nothing set is
  stripped to `{}` and dropped. `AcceptedIff` gives the exact condition.
- A property that happens to be called `required` is overwritten in the metadata view. The modes agree if
  and only if no call reaches an object that has one (`ProjectionIff`), and no reading of the view, however
  clever, gives the template back then (`NoReadingRecovers`).
- The printed id does not always end in the dictionary's type and name: an empty last type or name
  falls back to the root's (`PrintedDecomposes` gives the exact condition).
- The two authentication implementations differ on an empty block when the mode is the empty text or
  nothing is asked for (`ImplementationsAgree` gives the exact condition). An update that fails on half
  a pair of user references has already changed the method and leaves a consistent block inconsistent
  (`FailureMayDisturb` is such an input); every other failure leaves the block as it was
  (`FailureDisturbsIff`). With the empty text as mode and an empty block, `process_authentication` drops
  the references it is given and writes the anonymous method (`UpdateStores`).
- The two id parsers name different resources when an odd segment is left over or a newline cuts the
  tail (`ParsersCompared`, `ExtraSegment`).
- A fetch attempt recorded on a whole second stops the update check for good (`StuckForever`), and only
  such an attempt does (`AttemptsAgainIff`).
- A setting that is explicitly None hides its default on the first CSV export but not on the second
  (`SettledStableIff`).
- A stream cut inside a message body does not abort the trace loop: the part received is decoded as
  if it were whole (`TruncatedBodyIsDecoded`).
- A definition that refers to itself exhausts any recursion allowance (`SelfReferenceDiverges`).
- The documentation of `parse_resource_id` gives `resource_parent` a leading `providers/{namespace}/`;
  the code, and the model, leave it out.

## Model

| member | source | states |
|---|---|---|
| SchemaTermination.SlimTerminates | azext_edge/edge/providers/adr/helpers.py:668-765 | schema mode, which writes nothing: on any schema and any malformed keyword, acyclic `#/definitions` references give one fixed outcome from some recursion depth on, and never a recursion error. For config mode this is the reading by value; `InPlaceRuns.InPlaceTerminates` ties the code to it |
| SchemaTermination.CallsSmaller | azext_edge/edge/providers/adr/helpers.py:719-765 | the measure, by value: every schema passed to a recursive call has smaller unfolded size and mentions no new references (the in-place update is `InPlaceRuns`) |
| SchemaTermination.UpdateBounded | azext_edge/edge/providers/adr/helpers.py:726-730 | overlaying a reference's siblings on its target weighs at most both together |
| SchemaTermination.MergeVariantBounded | azext_edge/edge/providers/adr/helpers.py:571-578 | merging a `oneOf` variant into its parent never gains weight or references |
| SchemaTermination.MergeSubsBounded | azext_edge/edge/providers/adr/helpers.py:596-604 | by value, merging any number of `allOf` members never gains weight or references; what the shared dict gains is `InPlaceSteps.MembersSame` |
| SchemaTermination.DepthIrrelevant | azext_edge/edge/providers/adr/helpers.py:668-765 | by value, a result reached with some recursion allowance is reached with every larger one |
| SchemaTermination.SelfReferenceDiverges | azext_edge/edge/providers/adr/helpers.py:725-731 | a definition that is a reference to itself exceeds every recursion allowance |
| SchemaTermination.SelfReferenceNotAcyclic | azext_edge/edge/providers/adr/helpers.py:725-731 | such a root has no topological order of its references |
| SchemaTermination.SelfReferenceExists | azext_edge/edge/providers/adr/helpers.py:498-516 | for every slash-free name such a root exists, resolved through `#/definitions/name` |
| SchemaUnions.OneOfRenders | azext_edge/edge/providers/adr/helpers.py:519-578 | `oneOf` in config mode, and in schema mode with one variant: what is rendered is the parent overlaid with the first variant not of type "null" (the first of all if every one is), its value winning key by key and `properties` united, in the order of the keys; a message counts the candidates when there are several. Exactly when it is an error instead |
| SchemaUnions.AllOfRenders | azext_edge/edge/providers/adr/helpers.py:581-605 | `allOf` in config mode: each key but `properties` has the parent's value, else that of the first member holding it; each entry of `properties` is that of the last member holding it, else the parent's. Exactly when it is an error instead |
| SchemaUnions.RenderedIff | azext_edge/edge/providers/adr/helpers.py:522-536 | which variant is rendered and which are counted, in the words of the document |
| SchemaUnions.VariantProperty | azext_edge/edge/providers/adr/helpers.py:571-577 | one entry of the united `properties`: the variant's, else the parent's |
| SchemaUnions.MemberKey | azext_edge/edge/providers/adr/helpers.py:598-603 | one key of the merged members: the parent's, else that of the first member to hold it |
| SchemaUnions.MemberProperty | azext_edge/edge/providers/adr/helpers.py:600-601 | one entry of the merged `properties`: that of the last member to hold it |
| SchemaRules.UnionRenders | azext_edge/edge/providers/adr/helpers.py:519-595 | schema mode keeps a `oneOf` of several variants and every `allOf`: the object without the keyword, then the keyword with every variant or member rendered in order; the first failing call decides |
| SchemaRules.RefRenders | azext_edge/edge/providers/adr/helpers.py:721-735 | a reference that resolves is rendered as its target overlaid with the keys beside it; one that does not is dropped, and nothing beside it is null |
| SchemaRules.ResolvesIff | azext_edge/edge/providers/adr/helpers.py:498-516 | a reference resolves to the dict that its path, cut at the slashes behind "#/", leads to step by step from the root, and to nothing without the prefix "#/definitions/" |
| SchemaRules.ObjectRenders | azext_edge/edge/providers/adr/helpers.py:611-636 | an object: its fields rendered in order, each under its own path, all messages in order, then the required fields whose template is null, in order; in schema mode the required list under "required"; the first failing call decides |
| SchemaRules.FieldByField | azext_edge/edge/providers/adr/helpers.py:618-628 | one field of a template: its key, its value and the path of its call written out |
| SchemaRules.ArrayRenders | azext_edge/edge/providers/adr/helpers.py:640-653 | an array: a list of its item's rendering under `path[]`, or the default when that is null; in schema mode type, default, item and constraints in that order |
| SchemaRules.LeafRenders | azext_edge/edge/providers/adr/helpers.py:656-665 | a leaf: its default or null; in schema mode its type (the first but "null" of a list), its default and the six constraint keywords it has, in order |
| SchemaRules.ConstRenders | azext_edge/edge/providers/adr/helpers.py:745-750 | a constant is rendered as itself, and shown as one in schema mode |
| InPlaceSteps.StepSame | azext_edge/edge/providers/adr/helpers.py:571-604 | one call of the code, which extends a shared `properties` dict in place, takes the step of the call by value and leaves the changed dicts in order, when every dict it reads is complete |
| InPlaceSteps.MembersSame | azext_edge/edge/providers/adr/helpers.py:597-604 | the `allOf` loop over the shared dict: the merged schema is that by value, and the dict holds what the members make of its first or of its final entries |
| InPlaceSteps.OverlayIdempotent | azext_edge/edge/providers/adr/helpers.py:601 | extending a dict twice by the same members is extending it once, order of keys included |
| InPlaceUnions.OneOfRuns | azext_edge/edge/providers/adr/helpers.py:519-578 | `oneOf` as config mode runs it, whatever has been changed so far: the variant is chosen and overlaid as `SchemaUnions.OneOfRenders` says of the dicts as they are now, united `properties` are a new dict, and nothing is changed |
| InPlaceUnions.AllOfRuns | azext_edge/edge/providers/adr/helpers.py:581-605 | `allOf` likewise, and the one dict it changes: that of the parent's `properties`, left holding each entry of the last member that has it, in order |
| InPlaceUnions.MemberProperty | azext_edge/edge/providers/adr/helpers.py:600-601 | one entry of the extended dict after the step, that no other dict has changed, and that it is the parent's |
| InPlaceRules.RefRuns | azext_edge/edge/providers/adr/helpers.py:721-735 | a reference is followed through the dicts as they are now, and its target overlaid in a new dict |
| InPlaceRules.ResolvesNowIff | azext_edge/edge/providers/adr/helpers.py:498-516 | where its path leads, step by step, through the changes made so far |
| InPlaceRules.SimpleRuns | azext_edge/edge/providers/adr/helpers.py:639-765 | constants, arrays and leaves, through the changes made so far |
| InPlaceRules.ObjectRuns | azext_edge/edge/providers/adr/helpers.py:611-636 | an object is the loop over the schema's own dict and then the names required now |
| InPlaceRules.LoopPasses | azext_edge/edge/providers/adr/helpers.py:618-628 | a loop that finishes read each entry from the dict as it was at that time, under its own path, with all messages in order, and the dict kept its size |
| InPlaceRules.LoopResized | azext_edge/edge/providers/adr/helpers.py:618-628 | it raises the error for a resized dict right after the entry that resized it |
| InPlaceRuns.InPlaceAgrees | azext_edge/edge/providers/adr/helpers.py:573-765 | on a steady document (each `properties` dict an `allOf` extends is met with the same members every time, and read nowhere else) the in-place run has the outcome of the run by value at every recursion depth, errors and warnings included |
| InPlaceRuns.InPlaceTerminates | azext_edge/edge/providers/adr/helpers.py:668-765 | config mode as the code runs it stops at the outcome by value on every steady document with acyclic references, and never resizes a dict while iterating it; `InPlaceTermination.InPlaceStops` is about stopping alone |
| InPlaceTermination.InPlaceStops | azext_edge/edge/providers/adr/helpers.py:597-765 | agreement not asked for: once every dict that an `allOf` extends is given its members' entries as well, if no reference and no extended dict leads back to itself, the in-place run on any schema of the document stops at one fixed outcome, an error raised by a malformed keyword or by a dict resized under iteration included |
| InPlaceTermination.OrderedSized | azext_edge/edge/providers/adr/helpers.py:597-601 | such an order gives every reference and every extended dict a size above all it can hold in any state of the run |
| InPlaceSizes.CallLighter | azext_edge/edge/providers/adr/helpers.py:719-765 | the measure in place: one call, from any state the run can reach, passes on less than it was given and leaves the extended dicts within their bounds |
| InPlaceUnsteady.LateStops | azext_edge/edge/providers/adr/helpers.py:597-601 | the documents of `LateWarning`, which are not steady, meet that condition: the run stops there |
| InPlaceUnsteady.CyclicNotOrdered | azext_edge/edge/providers/adr/helpers.py:597-601 | the diverging documents of `AcyclicIsNotEnough` meet it under no choice of extended dicts |
| InPlaceUnsteady.UnlockingNotOrdered | azext_edge/edge/providers/adr/helpers.py:597-601 | nor do those of `ResolvingLateDiverges` |
| InPlaceReport.RunNames | azext_edge/edge/providers/adr/helpers.py:629-634 | config mode as the code runs it, whatever it has changed: no "required fields" warning is without a name |
| InPlaceReport.RunReport | azext_edge/edge/providers/adr/helpers.py:480-495 | hence what a user is shown after any finished run in config mode: every collapsed-union message, then one naming every null required field in the order the run met them |
| InPlaceRuns.InPlaceWarnings | azext_edge/edge/providers/adr/helpers.py:618-634 | there its "required fields" warnings name exactly the required paths the calls reach whose template value is null |
| InPlaceRuns.UntouchedIff | azext_edge/edge/providers/adr/helpers.py:597-601 | a run leaves every dict of the document as it was if and only if no call on it extends a dict of the document by anything new |
| InPlaceRuns.OutputIntact | azext_edge/edge/providers/adr/helpers.py:573-765 | the output of a steady run mentions no dict the run has changed |
| InPlaceSeparate.SeparateTerminates | azext_edge/edge/providers/adr/helpers.py:573-765 | the same, from a condition read off the document key by key: references stand without `properties`, `oneOf` and `allOf`, `oneOf` and `allOf` do not meet, members hold no references, and references lead past extended dicts |
| InPlaceSeparate.SeparateSteady | azext_edge/edge/providers/adr/helpers.py:573-765 | that condition makes a document steady at every depth |
| InPlaceExamples.AcyclicIsNotEnough | azext_edge/edge/providers/adr/helpers.py:597-601 | a family of documents with acyclic references, on which the run by value stops and the in-place run exceeds every recursion allowance: an `allOf` beside a reference extends the definition by a reference to itself |
| InPlaceExamples.ResolvingLateDiverges | azext_edge/edge/providers/adr/helpers.py:597-601 | the same without any key beside a reference: the update makes a path through `properties` resolve, to what holds it |
| InPlaceWarningExample.LateWarning | azext_edge/edge/providers/adr/helpers.py:597-601 | a family of documents whose in-place run warns about a field the definition referred to does not have |
| InPlaceWarningExample.OrderMatters | azext_edge/edge/providers/adr/helpers.py:597-601 | with the two fields in the other order the same document gives the outcome by value, though it is not steady: an extension after the last reading is never seen |
| InPlaceResized.ResizedWhileIterating | azext_edge/edge/providers/adr/helpers.py:597-628 | a family of documents on which config mode raises RuntimeError at every recursion depth from four calls on |
| InPlaceResized.RenderedByValue | azext_edge/edge/providers/adr/helpers.py:597-628 | and which the reading by value renders |
| SchemaValidation.StripsExactly | azext_edge/edge/providers/adr/helpers.py:425-432 | stripping leaves no null below the root and no `{}` in a list, and changes exactly the documents that hold one (hence it is idempotent) |
| SchemaValidity.StripsPiecewise | azext_edge/edge/providers/adr/helpers.py:425-432 | entry by entry and item by item, in order: a null goes, a list item stripped to `{}` goes, and everything else stays stripped |
| SchemaValidation.TemplateValidates | azext_edge/edge/providers/adr/helpers.py:611-765 | in the fragment (properties, required, items, leaves with type, enum, bounds and `multipleOf`, const, sibling-free references) the compiler finishes, and a non-null template without a "required fields" warning validates after null stripping |
| SchemaValidation.ObjectValid | azext_edge/edge/providers/adr/helpers.py:611-636 | fields valid for their properties and no required field null make the stripped object valid |
| SchemaValidity.ObjectValidIff | azext_edge/edge/util/schema_validation.py:36-50 | the validator, for objects: every required name is there and every named property that is there is valid |
| SchemaValidity.ArrayValidIff | azext_edge/edge/util/schema_validation.py:36-50 | for arrays: every item is valid |
| SchemaValidity.NumberValidIff | azext_edge/edge/util/schema_validation.py:36-50 | for numbers: the four bounds and multiples |
| SchemaValidity.PlainValidIff | azext_edge/edge/util/schema_validation.py:36-50 | type, enum and const for the other documents |
| SchemaValidity.RefValidIff | azext_edge/edge/util/schema_validation.py:36-50 | a reference is valid for what its target is |
| InPlaceTemplates.TemplateValidatesInPlace | azext_edge/edge/providers/adr/helpers.py:611-765 | the in-place run on a fragment schema finishes and changes no dict, and its non-null template without a "required fields" warning validates after null stripping |
| SchemaDepth.FragmentReached | azext_edge/edge/providers/adr/helpers.py:668-765 | for acyclic references, a schema all of whose calls meet the fragment satisfies the depth-indexed fragment at every depth but finitely many |
| SchemaDepth.ProjectableReached | azext_edge/edge/providers/adr/helpers.py:668-765 | the same for the schemas of the projection law |
| SchemaAcceptance.AcceptedIff | azext_edge/edge/providers/adr/helpers.py:611-765 | in the whole fragment, arrays included, the stripped template validates if and only if every unset required field lies in an array item that strips to `{}` (and null is valid when the template is null) |
| SchemaAcceptance.UnsetRejected | azext_edge/edge/providers/adr/helpers.py:618-634 | any other unset required field makes the stripped template rejected at every depth |
| SchemaAcceptance.TemplateValidIff | azext_edge/edge/providers/adr/helpers.py:611-765 | for array-free fragment schemas the template validates if and only if there is no such warning (and null is valid when the template is null) |
| SchemaAcceptance.ArrayHidesRequired | azext_edge/edge/providers/adr/helpers.py:429-431 | an array whose item strips to `{}` is accepted in spite of the item's warning |
| SchemaAcceptance.LoneRequiredExample | azext_edge/edge/providers/adr/helpers.py:639-653 | a concrete schema where that happens, for every property name |
| SchemaProjection.ConfigIsProjection | azext_edge/edge/providers/adr/helpers.py:611-765 | for `oneOf`/`allOf`-free schemas with no property called `required`, both modes finish and erasing metadata from the schema-mode view gives exactly the config-mode template |
| SchemaProjection.RequiredPropertyLost | azext_edge/edge/providers/adr/helpers.py:635-636 | an object with a property called `required` never erases to its template |
| SchemaProjectionExact.ProjectionIff | azext_edge/edge/providers/adr/helpers.py:611-765 | the other conditions kept, over whole schemas: both modes finish, and erasing the view gives the template if and only if no call reaches an object with a property called `required` |
| SchemaProjectionExact.NoReadingRecovers | azext_edge/edge/providers/adr/helpers.py:635-636 | the loss is the code's: two schemas with such a property have one view between them and different templates, so no function of the view gives both templates back |
| SchemaWarnings.WarningsAreExact | azext_edge/edge/providers/adr/helpers.py:618-634 | by value: a name appears in a "required fields" warning exactly when some chain of calls reaches an object with that required path whose template is null, `oneOf` and `allOf` collapsing included; `InPlaceRuns.InPlaceWarnings` says when the code does the same |
| WarningMerge.ConsolidateWarnings | azext_edge/edge/providers/adr/helpers.py:480-495 | the loop returns the other messages in order, then one message with all name lists in order, if there is any |
| WarningMerge.MessagesSorted | azext_edge/edge/providers/adr/helpers.py:480-495 | message by message: the text of the prefix, the messages without it kept in order, the texts behind it gathered in order |
| WarningMerge.NamesListed | azext_edge/edge/providers/adr/helpers.py:633 | names are listed in single quotes with a comma and a space between them |
| WarningMerge.ConsolidateIdempotent | azext_edge/edge/providers/adr/helpers.py:480-495 | consolidating twice is consolidating once, for any messages |
| WarningMerge.ConsolidatedReport | azext_edge/edge/providers/adr/helpers.py:480-495 | for the messages the compiler writes: every collapsed-union message, then one naming every null required field in the order met |
| WarningMerge.CompilerNames | azext_edge/edge/providers/adr/helpers.py:629-634 | no "required fields" warning of the compiler by value, hence of schema mode, is without a name; for config mode as it runs see `InPlaceReport.RunNames` |
| WarningMerge.CompilerReport | azext_edge/edge/providers/adr/helpers.py:480-495 | hence what a user is shown after any finished run by value: every collapsed-union message, then one naming every null required field; for config mode as it runs see `InPlaceReport.RunReport` |
| WarningMerge.JoinSplit | azext_edge/edge/providers/adr/helpers.py:490 | splitting a name list at ", " and joining it again loses nothing |
| EndpointConfig.TemplateSubmits | azext_edge/edge/providers/adr/namespace_devices.py:530-587 | a non-null fragment template without a "required fields" warning, submitted back in its wrapper with the connector type in any letter case, is accepted unchanged by a check against the same schema, or against any that accepts no less (for OPC UA they are two files) |
| EndpointConfig.TemplateSubmitsIff | azext_edge/edge/providers/adr/namespace_devices.py:564-585 | when validation applies, against a schema that accepts the same as the one shown, a shown template is accepted back unchanged if and only if every unset required field lies in an array item that null stripping drops (and null is valid when the template is null) |
| EndpointConfig.LoadAndValidate | azext_edge/edge/providers/adr/namespace_devices.py:530-587 | what is accepted is what a wrapper holds, else the document, with its nulls; it has the connector type of the endpoint if it names one, and is valid once stripped unless checking is skipped or does not apply; only an invalid document is rejected, and a type error is raised exactly for a type that does not match |
| EndpointConfig.LoadIs | azext_edge/edge/providers/adr/namespace_devices.py:530-587 | which of the five outcomes a document has, read off it: wrapper, connector type that counts and differs but for letter case, or is no text, missing schema, dialect, and acceptance at some depth |
| EndpointConfig.UnwrapShown | azext_edge/edge/providers/adr/namespace_devices.py:536-543 | unwrapping a shown template returns what was shown |
| ResourceId.ParseResourceId | azext_edge/edge/util/id_tools.py:23-63 | returns the dictionary of the string: regex groups, numbered child entries, computed parents and targets; `{}` for blank and the bare name for a mismatch |
| ResourceIdKeys.EveryKey | azext_edge/edge/util/id_tools.py:23-98 | on every string the id expression matches: what the dictionary holds under every key, in terms of the segments, and that there is no other |
| ResourceIdKeys.PrintedKeys | azext_edge/edge/util/id_tools.py:23-98 | the id written from given segments is read back under every key as those segments: groups, children text, numbered entries, parent paths, namespace, type and name with their fallbacks, and the last child's number |
| ResourceIdKeys.OtherStrings | azext_edge/edge/util/id_tools.py:48-63 | the blank string gives no entries, and one that does not begin with "/subscriptions/" in any case only its name |
| ResourceId.CollectChildren | azext_edge/edge/util/id_tools.py:55-59 | the `finditer` loop adds exactly the numbered entries of all child matches, and their count |
| ResourceId.GetParentsFromParts | azext_edge/edge/util/id_tools.py:82-98 | the list builder produces every child's parent path and the resource parent |
| ResourceId.PrintResourceId | azext_edge/edge/util/id_tools.py:101-142 | prints from the left until a key is missing, for any dictionary; an error without a subscription |
| ResourceIdKeys.PrintsUntilMissing | azext_edge/edge/util/id_tools.py:121-142 | for any dictionary: the text is these segments, each behind a slash, up to the first missing key; of the first incomplete child only a namespace |
| ResourceIdKeys.PrintedIs | azext_edge/edge/util/id_tools.py:121-142 | a printed id is its segments, each behind a slash |
| ResourceId.AppendChildren | azext_edge/edge/util/id_tools.py:132-139 | the counted loop ends and appends all consecutive children, and the namespace of the first incomplete one |
| ResourceId.IsValidResourceId | azext_edge/edge/util/id_tools.py:145-155 | decides equality, ignoring case, of the string with its reprint |
| ResourceIdLaws.RoundTrip | azext_edge/edge/util/id_tools.py:11-18 | for slash-free segments (children newline-free), printing then parsing gives the identifier back if and only if no child but the last lacks a namespace and has type "providers" in any case |
| ResourceIdLaws.ChildrenRoundTrip | azext_edge/edge/util/id_tools.py:16-18 | the same for child chains of any length |
| ResourceIdLaws.ParsedClean | azext_edge/edge/util/id_tools.py:50-63 | what parsing yields is always slash-free and unambiguous |
| ResourceIdLaws.PrintParseIdempotent | azext_edge/edge/util/id_tools.py:50-63 | on every string the id expression matches, parsing the printed parse changes nothing |
| ResourceIdLaws.DictionaryPrints | azext_edge/edge/util/id_tools.py:123-142 | printing the parsed dictionary with all its computed keys prints the parsed identifier |
| ResourceIdGrammar.ValidIffGrammatical | azext_edge/edge/util/id_tools.py:145-155 | accepted exactly when the string reads `/subscriptions/S[/resourceGroups/G][/providers/NS/T/N tail]`, keywords in any case, the tail an even number of newline-free segments |
| ResourceIdGrammar.ReprintTail | azext_edge/edge/util/id_tools.py:16-18 | parsing and reprinting a tail of segments keeps all of it (ignoring case) when their number is even and is shorter when it is odd |
| ResourceIdGrammar.PrintedDecomposes | azext_edge/edge/util/id_tools.py:66-98 | the prefix and the dictionary's namespace, parent, type and name put together are the printed id exactly when the last name is non-empty and the last type is non-empty or the root's type is empty |
| ResourceIdGrammar.ParentPathPrints | azext_edge/edge/util/id_tools.py:84-96 | a child's parent path is the printed text before it, then its namespace |
| ResourceIdGrammar.ParentsNest | azext_edge/edge/util/id_tools.py:87-96 | each parent path properly extends the one before it |
| ResourceIdSplit.ParsersCompared | azext_edge/edge/util/az_client.py:349-372 | on every string the id expression matches with a group and a provider both parsers read the same subscription and group; the split parser names the last token of the whole tail, the regular expression the last paired token before a newline, or the root if that is empty |
| ResourceIdSplit.ParsersAgree | azext_edge/edge/util/az_client.py:349-372 | with a tail of one line the names agree exactly when its number of tokens is even and the last is non-empty (or the root's name is empty too), or it is odd and the last token repeats the name before it |
| ResourceIdSplit.ExtraSegment | azext_edge/edge/util/az_client.py:349-372 | `/subscriptions/S/resourceGroups/G/providers/NS/T/N/extra` is named N by one parser and `extra` by the other |
| ResourceIdSplit.ValidParsersAgree | azext_edge/edge/util/az_client.py:349-372 | on valid ids the names differ only by the fallback from an empty last name |
| Chunking.ChunkList | azext_edge/edge/util/common.py:259-279 | the loop computes the greedy packing under both limits, with the unit conversion |
| Chunking.FitsIff | azext_edge/edge/util/common.py:268-271 | a chunk keeps the limits exactly when it has at most `chunk_len` items and its JSON text at most 1024 bytes for each kilobyte |
| Chunking.ChunksWithin | azext_edge/edge/util/common.py:259-279 | in the terms of the call: every chunk of several items is within the given length and kilobytes or megabytes of text, and the first item of the next one would have broken a limit in it |
| Chunking.PackConserves | azext_edge/edge/util/common.py:266-279 | the concatenated chunks are the input in order |
| Chunking.ChunksAcceptable | azext_edge/edge/util/common.py:266-279 | every chunk meets both limits or is one item; an empty chunk occurs only first, exactly when the first item alone breaks a limit |
| Chunking.PackOptimal | azext_edge/edge/util/common.py:266-279 | when every item fits alone, no consecutive split within the limits uses fewer chunks |
| DotNotation.ParseDotNotation | azext_edge/edge/util/common.py:230-246 | builds fresh, unshared nested dicts holding what storing the readable pairs in order gives |
| DotNotation.ReadPairIs | azext_edge/edge/util/common.py:236-246 | one pair: white space around the two sides of the first "=" is dropped and the left side cut at every dot |
| DotNotation.SkippedIff | azext_edge/edge/util/common.py:236-238 | a pair is skipped if and only if it holds no "=" |
| DotNotation.NestedDict.Set | azext_edge/edge/util/common.py:240-245 | the walk replaces every non-dict on the way, stores the value at the last key, and keeps all dicts separate |
| DotNotation.NestedDict.Child | azext_edge/edge/util/common.py:242-244 | entering a key keeps an existing dict and puts an empty one in place of anything else |
| DotNotation.StoredLeaf | azext_edge/edge/util/common.py:241-245 | storing at a path sets that leaf, removes the leaves at its prefixes and extensions, and keeps all others |
| DotNotation.LeafIffLastWord | azext_edge/edge/util/common.py:235-246 | value v is at path p exactly when some pair sets p to v and no later path equals, prefixes or extends p |
| DotNotation.SameLeaves | azext_edge/edge/util/common.py:230-246 | trees without empty subtrees are equal when their leaves are |
| DotNotation.Rebuild | azext_edge/edge/util/common.py:235-246 | storing the leaves of such a tree in any order, with repetitions, rebuilds it |
| DotNotation.RebuildFromText | azext_edge/edge/util/common.py:236-240 | the same from the printed `a.b=v` pairs |
| DotNotation.StoreAllFull | azext_edge/edge/util/common.py:230-246 | parsing never leaves an empty subtree |
| DataPoints.Dataset.Add | azext_edge/edge/providers/adr/assets.py:348-361 | appends, or rejects a known name unless replacing |
| DataPoints.Dataset.Import | azext_edge/edge/providers/adr/assets.py:684-693 | the merge loop computes the import of a file over the list |
| DataPoints.Dataset.Remove | azext_edge/edge/providers/adr/assets.py:476 | drops every copy of a name |
| DataPoints.ImportedIs | azext_edge/edge/providers/adr/assets.py:684-693 | an import has unique names in first-seen order, and overlays the file over or under the list by the flag, last copies winning |
| DataPoints.ImportIdempotent | azext_edge/edge/providers/adr/assets.py:684-693 | importing the same file again changes nothing |
| DataPoints.RemovedView | azext_edge/edge/providers/adr/assets.py:476 | removal deletes the name from the map the list stands for |
| DataPoints.RemovedIs | azext_edge/edge/providers/adr/assets.py:476 | the points of any other name stay, in order, copies included |
| DataPoints.RunRefines | azext_edge/edge/providers/adr/assets.py:347-361 | over any sequence of add, import and remove the list acts as a name-to-point map |
| CsvPoints.ConvertToCsv | azext_edge/edge/providers/adr/assets.py:875-892 | every point dict of the list is re-keyed in place: configuration unpacked, unexported entries dropped, own value else default else None under each heading; the headings come back in order |
| CsvPoints.ConvertFromCsv | azext_edge/edge/providers/adr/assets.py:852-872 | every point dict is re-keyed back in place, or the conversion fails exactly when some point raises an error |
| CsvPoints.PointDict.Rekey | azext_edge/edge/providers/adr/assets.py:890-891 | the pop-and-set loop over any column table |
| CsvPoints.PointDict.FromHeadings | azext_edge/edge/providers/adr/assets.py:853-872 | one point: headings renamed, mode capitalised, settings moved to the configuration of its kind |
| CsvCells.ExportTable | azext_edge/edge/providers/adr/assets.py:813-832 | the export table as written in the source: property and heading names of all four forms in order |
| CsvCells.ImportTable | azext_edge/edge/providers/adr/assets.py:836-851 | the import table as written in the source |
| CsvCells.ExportedIs | azext_edge/edge/providers/adr/assets.py:875-892 | what an export leaves in any point: under each heading the configuration's value, else the point's own, else in the portal's form the default, else None; what is no column as it was; no configuration of its own kind |
| CsvCells.CellsAre | azext_edge/edge/providers/adr/assets.py:875-892 | the cells of the file, when it can be written, are the texts of those values; it can be exactly when nothing is left over |
| CsvCells.ImportIs | azext_edge/edge/providers/adr/assets.py:852-872 | what an import does to a point once its headings are renamed: mode, the two settings, the configuration they move to, and every error |
| CsvCells.CapitalizeIs | azext_edge/edge/providers/adr/assets.py:860 | the first letter is raised and every other lowered |
| CsvCells.ReadIntIs | azext_edge/edge/providers/adr/assets.py:862-867 | white space, one sign, and digits with single underscores are read; `ReadDigitsIff` says no other digits are |
| CsvCells.DigitAt | azext_edge/edge/providers/adr/assets.py:862-867 | each digit of decimal text is the one at its place |
| CsvPoints.TablesInverse | azext_edge/edge/providers/adr/assets.py:813-851 | in all four forms (data points or events, portal or not) every heading the export writes is read back as the property it was written for, and no two columns share a heading or property |
| CsvPoints.DecimalRoundTrip | azext_edge/edge/providers/adr/assets.py:862-867 | every integer written as decimal text is read back, and its text is never empty |
| CsvRoundTrip.HeadedIs | azext_edge/edge/providers/adr/assets.py:890-891 | the export loop removes exactly the properties, adds exactly the headings with the values in force, and keeps everything else |
| CsvRoundTrip.RenamedIs | azext_edge/edge/providers/adr/assets.py:855-857 | the import loop gives every heading's value to its property and keeps everything else, for any dict without competing headings |
| CsvRoundTrip.ExportWrites | azext_edge/edge/providers/adr/assets.py:875-892 | the file can be written exactly when nothing but the columns is left in the point; its cells then are the values in force |
| CsvRoundTrip.RoundTrip | azext_edge/edge/providers/adr/assets.py:835-892 | every exportable point with numeric settings in force is read back without error as its settled form, in all four forms |
| CsvCells.ReadBack | azext_edge/edge/providers/adr/assets.py:835-892 | in terms of the values in force: every column comes back as text, the mode capitalised, and the configuration holds exactly the two settings in force, as the same numbers |
| CsvRoundTrip.SettledIs | azext_edge/edge/providers/adr/assets.py:835-892 | that form keeps every exported value as text, capitalises the mode, and holds a configuration with exactly the settings that were in force |
| CsvRoundTrip.SettledStableIff | azext_edge/edge/providers/adr/assets.py:835-892 | with numeric defaults a second export and import changes nothing if and only if no exported setting was an explicit None hiding a default |
| CsvRoundTrip.ImportPasses | azext_edge/edge/providers/adr/assets.py:835-872 | a point already in the service's form, as in a JSON file, passes the import unchanged but for the case of its mode |
| TraceStream.Socket.FetchBytes | azext_edge/edge/providers/stats.py:257-271 | however the socket splits its bytes: the next min(n, remaining) bytes, and no more consumed |
| TraceStream.Socket.FetchMessage | azext_edge/edge/providers/stats.py:122-124 | the body a length header announces, as far as the stream holds it |
| TraceStream.ReadTraces | azext_edge/edge/providers/stats.py:116-197 | the read loop's messages, returned traces, ending and unread bytes depend only on the bytes of the stream, not on their fragmentation; traces are returned only when the count is reached |
| TraceStream.GetTraces | azext_edge/edge/providers/stats.py:116-197 | the same on the source's wire, four big-endian bytes |
| TraceStream.KeptIs | azext_edge/edge/providers/stats.py:146-190 | the traces returned are the usable ones, each where it stood |
| TraceStream.HeaderRoundTrip | azext_edge/edge/providers/stats.py:98-123 | big-endian headers of any width read back every length they can hold |
| TraceStream.FourBytes | azext_edge/edge/providers/stats.py:98-123 | the four header bytes, read and written, by place value: the first is the most significant |
| TraceStream.ReadsAnnounced | azext_edge/edge/providers/stats.py:119-136 | when the first message announces N > 0 and N framed messages follow, exactly those are read, whole and in order, and nothing behind them |
| TraceStream.AbortsAtHeader | azext_edge/edge/providers/stats.py:126-128 | a stream ending at or inside a header before the announced count aborts after all its whole messages |
| TraceStream.StopsOnZero | azext_edge/edge/providers/stats.py:133-137 | a first message announcing zero ends the loop there |
| TraceStream.UndecodableStops | azext_edge/edge/providers/stats.py:124-130 | a whole message that does not parse ends the loop, with everything before it read and everything behind it left |
| TraceStream.TruncatedBodyIsDecoded | azext_edge/edge/providers/stats.py:124-136 | a stream cut inside a body, after any number of whole messages, does not abort there: the part received is decoded and counted as a message, with the ending the announced count then leads to |
| TraceStream.BigEndianSendable | azext_edge/edge/providers/stats.py:100-123 | the above apply to all non-empty decodable messages under 2^32 bytes on four-byte headers |
| Authentication.AuthProps.Process | azext_edge/edge/providers/adr/helpers.py:340-413 | the whole block and outcome of `process_authentication`, failures included |
| Authentication.AuthProps.ProcessProfile | azext_edge/edge/providers/adr/asset_endpoint_profiles.py:328-367 | the same for the endpoint-profile implementation |
| Authentication.AuthProps.SetupUserPass | azext_edge/edge/providers/adr/helpers.py:314-330 | stored credentials are edited before the check that raises |
| Authentication.UpdateStores | azext_edge/edge/providers/adr/helpers.py:290-413 | a successful update by either implementation that asks for anything stores exactly the given references, each under its own name, and no others, if and only if they are not dropped (empty block, empty text as mode); one that asks for nothing leaves the block alone, or writes the anonymous method into an empty one |
| Authentication.FieldsStored | azext_edge/edge/providers/adr/helpers.py:290-330 | the references one by one: user name and password, certificate with key, certificate with intermediate, each under its own name |
| Authentication.FailsIff | azext_edge/edge/providers/adr/helpers.py:374-413 | which update fails with which of the four errors, in both implementations |
| Authentication.FailureLeaves | azext_edge/edge/providers/adr/helpers.py:314-413 | what a failed update leaves, by field |
| Authentication.LastAskedIsStored | azext_edge/edge/providers/adr/helpers.py:290-413 | after any session of successful updates the block holds the references of the last update that asked for anything, by field, if they were not dropped |
| Authentication.SessionConsistent | azext_edge/edge/providers/adr/helpers.py:290-413 | any mix of successful updates by both implementations keeps the method and the one credential object in agreement |
| Authentication.SuccessIsConsistent | azext_edge/edge/providers/adr/helpers.py:290-413 | a successful update that asks for anything makes any block consistent |
| Authentication.ImplementationsAgree | azext_edge/edge/providers/adr/asset_endpoint_profiles.py:328-367 | without key and intermediate references both give the same block and outcome, except exactly on an empty block with an empty-text mode or nothing asked for and no clash of references |
| Authentication.FailureMayDisturb | azext_edge/edge/providers/adr/helpers.py:322-328 | an input: a failed user/password update on a certificate block leaves it inconsistent |
| Authentication.FailureDisturbsIff | azext_edge/edge/providers/adr/helpers.py:314-413 | when: a failed update of a consistent block leaves it as it was, and consistent, if and only if it does not fail on half a pair of user references, in both implementations (the first also looks for stray certificate references before that) |
| Authentication.CaughtConsistent | azext_edge/edge/providers/adr/helpers.py:290-413 | over any mix of updates whose failures are caught: the block stays consistent as long as none is given half a pair, and one that is makes it inconsistent |
| PodCache.Cache.GetPods | azext_edge/edge/providers/base.py:109-140 | one call's answer and the cache after it, for every list, refusal or other error of the API and both error policies |
| PodCache.KeptIff | azext_edge/edge/providers/base.py:115-116 | a pod is in an answer exactly when it is listed and its name starts with the prefix, as often as it is listed; `WithPrefixIs` gives the order |
| PodCache.FirstAnswer | azext_edge/edge/providers/base.py:126-140 | the call that is given the list answers from it and stores the whole of it |
| PodCache.StoreIsFirst | azext_edge/edge/providers/base.py:126-134 | over any run the cache holds exactly the first list each key was given |
| PodCache.AtMostOneFetch | azext_edge/edge/providers/base.py:126-134 | each key has at most one successful fetch |
| PodCache.LaterAnswers | azext_edge/edge/providers/base.py:118-140 | after that fetch every call for any prefix answers by filtering that list, whatever the API would do, and leaves the cache alone |
| PodCache.EarlierAnswers | azext_edge/edge/providers/base.py:135-138 | before it, a failure is reported, read as no pods or raised, and never cached |
| VersionThrottle.IndexManager.UpgradeAvailable | azext_edge/edge/util/version_check.py:74-101 | the persisted keys after a call and the version it reports, a timestamp that cannot be read back and an error raised while asking the endpoint included, and exactly when the endpoint is asked |
| VersionThrottle.AttemptsIff | azext_edge/edge/util/version_check.py:74-86 | the first call consults the endpoint; a call after the last attempt does if and only if that attempt was recorded with a fraction of a second, and the call is forced or more than one day later |
| VersionThrottle.CallIs | azext_edge/edge/util/version_check.py:74-101 | what each call of a run records and which version it compares |
| VersionThrottle.LastAttempt | azext_edge/edge/util/version_check.py:85-86 | the recorded time is that of the last attempt, successful or not |
| VersionThrottle.AttemptsApart | azext_edge/edge/util/version_check.py:80-86 | with a nondecreasing clock an unforced attempt is recorded more than a day after the previous recorded one |
| VersionThrottle.LatestIsLastFound | azext_edge/edge/util/version_check.py:89-93 | the persisted version is the last one fetched over the run |
| VersionThrottle.ComparedIsLastFound | azext_edge/edge/util/version_check.py:74-97 | the version compared, if the call gets that far, is always the last one fetched, else the installed one |
| VersionThrottle.AttemptsAgainIff | azext_edge/edge/util/version_check.py:77-101 | after its last attempt a run has some later call that attempts again if and only if that attempt was not recorded on a whole second |
| VersionThrottle.StuckForever | azext_edge/edge/util/version_check.py:77-101 | an attempt recorded on a whole second is the last one ever: no later call, forced or not, attempts another or compares anything |
| Workflow.WorkflowDisplay.UpdateStep | azext_edge/edge/util/workflow_display.py:194-228 | sets one step, or reports an unknown one and changes nothing |
| Workflow.SetStepIs | azext_edge/edge/util/workflow_display.py:194-228 | exactly what is given is stored under the step, and every other step is kept |
| Workflow.WorkflowDisplay.CompleteCategory | azext_edge/edge/util/workflow_display.py:205-220 | the loop completes exactly the pending steps of the category, or reports an unknown one |
| Workflow.CompleteAllIs | azext_edge/edge/util/workflow_display.py:216-220 | completing keeps the step set, leaves nothing pending in the category, keeps every other entry, and is idempotent |
| Workflow.RunInvariant | azext_edge/edge/util/workflow_display.py:194-241 | under every interleaving of threads, only the lock holder is inside an operation and the board is that far from the last released one |
| Workflow.SnapshotsAreAtomic | azext_edge/edge/util/workflow_display.py:230-241 | every rendered snapshot is a board between whole operations, consecutive boards differ by one whole operation, and the step set never changes |

## Left out

- SchemaValidation.TemplateValidates: the validator covers type, enum, const, bounds, `multipleOf`, required, properties and single-schema items, with `$ref` followed through plain slash-separated names (no `~` or `%` escapes); object equality for const and enum is equality of ordered fields. A template that is null at the root is not promised acceptance.
- SchemaTermination.SlimTerminates: a keyword of the wrong JSON type gives one error outcome; Python iterates some of these instead (a text as `oneOf`, for example).
- InPlaceRuns.InPlaceTerminates: steadiness is a sufficient condition; the exact one for agreement would have to follow the order in which fields are rendered (OrderMatters). For stopping alone InPlaceTermination.InPlaceStops asks for less.
- InPlaceTermination.InPlaceStops: sufficient as well: an extension that comes after the last reading is counted though it is never seen.
- InPlaceUnions.AllOfRuns: requires that the dict being extended is neither a member nor the `properties` of one, which parsed JSON guarantees.
- SchemaUnions.OneOfRenders: requires that no dict holds a key twice, as Python dicts do; so do the other laws stated key by key.
- InPlaceSeparate.SeparateTerminates: members that hold references are outside this condition, though a document with them can be steady.
- InPlaceRuns.InPlaceWarnings: the wording about a collapsed `oneOf` (its discriminator label) is a parameter.
- EndpointConfig.TemplateSubmits: whether the two OPC UA files, one shown and one validated against, accept the same is data of the repository and a condition here. Whether the schema is well formed is a parameter, and so is the library's validator (required to agree with the one in `SchemaValidation`); reading inline text or files and fetching a schema are not modelled.
- EndpointConfig.TemplateSubmitsIff: the same condition, both ways.
- ResourceId.ParseResourceId: the two regular expressions are written as scanners, and dictionary keys as a datatype; case is folded on ASCII only.
- ResourceId.IsValidResourceId: the optional exception class is not modelled, nor is the resource-name check.
- Chunking.ChunkList: `json.dumps` of an item is its byte length, chosen freely; the unit is a flag instead of a text.
- DotNotation.NestedDict.Set: the walk is written as recursion on the remaining keys; the source writes it as a loop over a moving reference.
- DataPoints.Dataset.Import: a point without a name, the construction of a new point, and the service calls around the edits are not modelled.
- CsvPoints.ConvertToCsv: dict keys and headings are a datatype; entries are text, numbers or None; the configuration texts are kept parsed, and unparsable ones are not modelled. Quoting and line breaks inside cells are the csv library's.
- CsvPoints.ConvertFromCsv: digits, white space and case are ASCII, and what is left in the list after an error is not described.
- TraceStream.ReadTraces: protobuf decoding, the choice of usable traces, the zip archive and progress output are parameters or left out; a decoding error ends the loop.
- Authentication.AuthProps.Process: only the three keys of the block are modelled; that an empty dict is replaced by a fresh one, and the log messages, are not.
- PodCache.Cache.GetPods: the dict form of the answer is not modelled. The service and custom-object caches of the same file have the same shape.
- VersionThrottle.IndexManager.UpgradeAvailable: version ordering is a parameter, false when a version does not parse; the connectivity probe and the request are one outcome: unreachable, an answer, or an error.
- Workflow.WorkflowDisplay.UpdateStep: the switched-off display and the step scope, which calls this method, are not modelled; nor is drawing the grid.
- `upsert_by_discriminator`, query-text builders, terminal-state waiting and the other small helpers would only add easy members.
- Command plumbing, HTTP, SDK, Kubernetes, registry and file access are foreign calls.
