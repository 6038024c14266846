# DBpedia taxonomy fetcher — a verified model

The DBpedia taxonomy fetcher builds a taxonomy of DBpedia ontology classes.
It starts at a root class and asks a SPARQL endpoint for the direct
subclasses of each class, one level at a time. Then it collects the
instances of every class and the English abstract of every instance. It
writes a checkpoint of the whole taxonomy every thousand fetched
abstracts, and it can export the abstracts as one text file per instance.

This project models the core of that program in Dafny:

- `taxonomy.dfy` (module `Taxonomy`) is the data structure.
  - `TClass` objects have a fixed name, level and father, and a list of
    children and a set of instances that change in place.
  - `Instance` objects have a URI and an abstract that is absent until it
    is fetched.
  - The `Taxonomy` wrapper holds the registry of classes and the running
    depth.
  - The indented tree rendering is specified on finite `Tree` values.
- `queries.dfy` (module `Queries`) holds the three SPARQL query texts and
  the rule that qualifies a class name with the ontology namespace.
- `sparql.dfy` (module `Sparql`) is the endpoint, modelled as an oracle.
  - A query string either fails (`None`) or yields a result set of
    variable names and binding rows.
  - The module also says how a column of bracketed values is read from
    such a result.
- `builder.dfy` (module `Builder`) is the level-by-level, breadth-first
  construction of the taxonomy. It is imperative: it changes the taxonomy
  and the classes' children in place.
- `collector.dfy` (module `Collector`) holds the two collection phases
  after the build, and the names and contents of the exported files.
  - The instance phase adds instances to each class.
  - The abstract phase fills in every instance's abstract and records
    checkpoints.
- `checkpoints.dfy` (module `CheckpointSchedule`) says when the abstract
  phase writes a checkpoint, as a function of which visits fetched.
- `text.dfy` and `wrappers.dfy` provide the string helpers (Python's
  `split('/')[-1]`, `[:-1]`, decimal printing) and `Option`.

The endpoint is a parameter of type `string -> Option<ResultSet>`. The
builder and the collectors are proved against its answers to one kind of
query each: `SubclassAnswers`, `InstanceAnswers` and `AbstractAnswers`.

Some behaviour of the code is easy to miss. The model follows it:

- **Registry.** A class registered under a name already present replaces
  the earlier entry: the last writer wins, and only a warning is printed.
- **Depth.** The depth is the largest level of every class ever
  registered, overwritten ones included (`DepthOutlivesOverwrite`). It is
  not the largest level among the classes still registered.
- **Root entry.** The constructor files a fresh level-0 copy of the root
  under the root object, not under its name, so registering a class with
  the root's name does not warn. The instance collector walks the
  registry's values, so it fills the copy's instance set, not the root's.
- **Instance sets.** Instances are kept in a set of objects. Two instances
  with the same URI are different members (`Made` states the objects are
  pairwise different).
- **Checkpoints.** A checkpoint is written before a visit whenever the
  fetch count is a multiple of 1000: at count 0 before the first visit, and
  again before each visit while the count stays on a multiple
  (`RepeatsWhileIdle`).
- **Class labels.** The class label is the last `/`-segment of the name
  with its final character dropped, followed by the level in parentheses.
- **Levels.** A created class's level is the round number. Its father's
  level plus one holds only when the root has level 0 (`OneBelowFather`),
  as it does for the driver's root `TClass(args[0])`
  (src/dbp_taxonomy_fetcher.py:304), which takes the default level 0.

## Model

| member | source | states |
|---|---|---|
| Taxonomy.TClass.constructor | src/taxonomy.py:8-16 | name, level, father and children are the arguments (defaults: level 0, no father, no children); the instance set starts empty |
| Taxonomy.Instance.constructor | src/taxonomy.py:37-38 | the URI is the argument (default empty); the instance has no abstract attribute yet |
| Taxonomy.TClass.Repr | src/taxonomy.py:19-20 | the label ends with the level in decimal between `" ("` and `")"` |
| Taxonomy.ReprOfUri | src/taxonomy.py:19-20 | the label of a class named `p/x>` (no `/` in `x`) is `x (level)`: the last path segment without its closing character |
| Taxonomy.ReprDeterminesLevel | src/taxonomy.py:19-20 | two classes of the same name have the same label only if they have the same level |
| Taxonomy.TClass.AddChild | src/taxonomy.py:23-30 | the child is appended at the end and every earlier child stays in place, even when a child of the same name exists; one warning per same-named child already present; instances unchanged |
| Taxonomy.CountNamedPositive | src/taxonomy.py:25-28 | at least one warning is printed exactly when a child of the same name is already present |
| Taxonomy.Taxonomy.constructor | src/taxonomy.py:46-50 | depth 0, the given root, and exactly one registry entry: keyed by the root object, holding a fresh level-0 class of the root's name without father, children or instances |
| Taxonomy.Taxonomy.Default | src/taxonomy.py:46-50 | the default root is a fresh level-0 class named `<http://dbpedia.org/ontology/Thing>` without father or children; the registry is as for the constructor |
| Taxonomy.Taxonomy.AddClass | src/taxonomy.py:73-79 | the name now maps to the class and every other key keeps its value; `warned` exactly when the name was already registered; the depth becomes the larger of the old depth and the class's level; the registry invariant is kept |
| Taxonomy.RegisterLastWriterWins | src/taxonomy.py:77 | after a series of registrations, a name maps to the last class registered under it |
| Taxonomy.RegisterKeepsOtherKeys | src/taxonomy.py:77 | entries under keys that no registered class is filed under keep their value |
| Taxonomy.RegisterKeys | src/taxonomy.py:75-77 | the registry's keys are the root key plus the names of all registered classes |
| Taxonomy.RegisterAppend | src/taxonomy.py:77 | registering two batches one after the other is registering their concatenation |
| Taxonomy.MaxLevelIsMax | src/taxonomy.py:78-79 | the depth bounds the level of every registered class and, unless 0, is the level of one of them |
| Taxonomy.MaxLevelAppend | src/taxonomy.py:78-79 | the depth after two batches is the larger of the two batches' largest levels |
| Taxonomy.MaxLevelUniform | src/taxonomy.py:78-79 | a batch of classes all at level `l` has largest level `l` |
| Taxonomy.DepthOutlivesOverwrite | src/taxonomy.py:73-79 | registering a deep class and then a shallower one of the same name leaves a depth greater than the level of every class still registered |
| Taxonomy.Taxonomy.Repr | src/taxonomy.py:53-56 | the rendering of the taxonomy is the rendering of the tree under the root |
| Taxonomy.Taxonomy.GenChildRepr | src/taxonomy.py:59-70 | the result is the rendering of the given classes' trees: `""` for none; otherwise each class's line (twice its level in spaces, the name, a newline) followed by its subtree, classes in list order |
| Taxonomy.RenderIsPreOrder | src/taxonomy.py:59-70 | the rendering is one line per node, with nodes in pre-order (a node before its children, siblings in list order) |
| Taxonomy.RenderAppend | src/taxonomy.py:67-69 | the rendering of a list of siblings is the renderings of its parts, one after the other |
| Taxonomy.PreOrder | src/taxonomy.py:67-69 | the pre-order of a non-empty list of trees starts with its first tree |
| Text.LastSegment | src/taxonomy.py:20 | `split('/')[-1]`: a suffix of the input that contains no separator and is preceded by one when shorter than the input |
| Text.DropLast | src/taxonomy.py:20 | `[:-1]`: the input without its last character; empty stays empty |
| Text.LocalNameOf | src/taxonomy.py:20 | the last segment of `p/x` followed by a closing character, with that character dropped, is `x` |
| Text.NatToString | src/taxonomy.py:20 | `'{0}'.format(level)`: at least one decimal digit, with a leading zero only for 0 |
| Text.NatToStringInjective | src/taxonomy.py:20 | different levels print differently |
| Text.DigitsValueOfNatToString | src/taxonomy.py:20 | reading the printed digits back gives the number |
| Text.Spaces | src/taxonomy.py:68 | `" " * n`: exactly `n` spaces |
| Queries.Qualify | src/queries.py:10-11 | the embedded name is qualified (it starts with `dbpedia-owl` or `<http://dbpedia.org/ontology/`); the name is unchanged exactly when it already was; otherwise it is `dbpedia-owl:` followed by the name |
| Queries.SelectSubclass | src/queries.py:9-14 | the subclass query is the prefixes and the fixed `SELECT DISTINCT ?subClass` head, then the qualified class name and `" . }"` |
| Queries.SelectClassInstances | src/queries.py:16-21 | the instance query is the prefixes and the fixed `SELECT DISTINCT ?Concept` head, then the qualified class name and `" . }"` |
| Queries.QualifyIdempotent | src/queries.py:10-11 | qualifying a qualified name changes nothing |
| Queries.QualifiedAndBareAgree | src/queries.py:10-14 | an unqualified name and its `dbpedia-owl:` form yield the same subclass query |
| Queries.ClassQueriesFramed | src/queries.py:9-21 | both class queries begin with the prefixes and end with the qualified name followed by `" . }"` |
| Queries.SelectSubclassDeterminedByName | src/queries.py:9-14 | two subclass queries are equal exactly when the qualified names are |
| Queries.ClassQueriesAgree | src/queries.py:16-21 | two instance queries are equal exactly when the subclass queries for the same names are: both apply the same qualification |
| Queries.GetAbstract | src/queries.py:23-25 | the abstract query begins with the prefixes, holds the resource verbatim right after its fixed head, and ends with the language verbatim inside the filter; the language defaults to `en` |
| Queries.GetAbstractInjective | src/queries.py:23-25 | for a fixed language, the abstract query determines the resource |
| Queries.QueryKindsDistinct | src/queries.py:9-25 | no subclass, instance or abstract query equals a query of another kind |
| Sparql.Column | src/dbp_taxonomy_fetcher.py:178-179 | one value per row, in row order: the row's value for the variable between `<` and `>` |
| Sparql.ColumnsUpToLength | src/dbp_taxonomy_fetcher.py:177-179 | an answer yields one value per pair of head variable and row |
| Sparql.SingleVariableValues | src/dbp_taxonomy_fetcher.py:177-179 | an answer with one head variable yields exactly that variable's column |
| Sparql.NoRowsNoValues | src/dbp_taxonomy_fetcher.py:177-178 | an answer without rows yields nothing, whatever its head |
| Builder.NoAnswerNoSubclasses | src/dbp_taxonomy_fetcher.py:173-178 | a failed query, or an answer without rows, gives the class no subclasses |
| Builder.AddSubclass | src/dbp_taxonomy_fetcher.py:179-185 | a fresh class of the given name, at round `ii`, with the frontier class as father, is registered (depth raised to `ii`) and appended to the father's children |
| Builder.ExpandColumn | src/dbp_taxonomy_fetcher.py:178-185 | one new child per row, named after the row's value, in row order; each registered, appended to the children and to the frontier, with no filter on names already present |
| Builder.ExpandAnswer | src/dbp_taxonomy_fetcher.py:177-185 | the new children's names are the answer's values, variable by variable and row by row; registry, depth and children grow accordingly |
| Builder.ExpandClass | src/dbp_taxonomy_fetcher.py:172-185 | a class gets exactly its reported subclasses as new children, each at level `ii` with it as father (none on a failed query); the children this expansion gave it (`KidsOf`) are exactly the classes returned; the taxonomy invariant holds; classes already expanded and those still waiting stay as they are |
| Builder.ExpandNode | src/dbp_taxonomy_fetcher.py:171-185 | expanding the next frontier class gives it the classes returned as its new children, named after its reported subclasses; the created classes stay pairwise different and correctly placed; the expanded/unexpanded boundary moves past it and the list of children per class grows by its block |
| Builder.ExpandNext | src/dbp_taxonomy_fetcher.py:171-185 | one step of a round keeps the round's invariant: frontier classes before it are expanded, the new frontier so far is the blocks of children they got, at level `ii` with smaller rank |
| Builder.ExpandRound | src/dbp_taxonomy_fetcher.py:168-187 | a round expands every frontier class in order; the new frontier is exactly the children created for the frontier classes, class after class, in frontier order (`KidsOfAll`), one block per frontier class; all at level `ii`; the depth becomes `ii` exactly when the round created a class |
| Builder.RoundEnd | src/dbp_taxonomy_fetcher.py:168-185 | when every frontier class is expanded, the new frontier is the concatenation of the children each frontier class got |
| Builder.BuildRound | src/dbp_taxonomy_fetcher.py:164-186 | one pass of the outer loop: the state between rounds holds again for round `ii + 1`, the frontier is replaced by the classes created, and the rank bound strictly drops |
| Builder.BuildStep | src/dbp_taxonomy_fetcher.py:185-186 | after a round, the classes after the root are still the children of the classes before the new frontier, block after block; the levels stay sorted and the new round's size is the number of classes at level `ii` |
| Builder.BuildEnd | src/dbp_taxonomy_fetcher.py:164-188 | when the frontier is empty, every class is expanded, the classes after the root are the children of all classes in creation order, and the rounds and levels agree |
| Builder.ListedClosed | src/dbp_taxonomy_fetcher.py:178-185 | every child of a class is a class of the taxonomy, and every class but the root is among the children of its father |
| Builder.LevelsStep | src/dbp_taxonomy_fetcher.py:178-186 | appending a round whose classes are all at level `ii` keeps the levels sorted and makes the round's size the count of classes at level `ii` |
| Builder.BuildLoop | src/dbp_taxonomy_fetcher.py:164-188 | running rounds from the root alone until a round creates nothing reaches the state after the last round, and every class listed after the root was allocated on the way |
| Builder.ExpandFrom | src/dbp_taxonomy_fetcher.py:163-188 | the loop ends after the first round that creates nothing; every class, the root included, has exactly its reported subclasses as new children, in answer order, with it as father; the classes after the root are the children of all classes, class after class in creation order; every child of a class is a class of the taxonomy and every class but the root is a child of its father; levels never decrease in creation order and round `k` created exactly the classes of level `k`; each created class is one level below its father, or at level 1 below the root; the root's earlier children stay in front; the depth is the number of rounds that created a class; every class after the root is newly allocated and holds no instances yet |
| Builder.GenerateTaxonomyFromClass | src/dbp_taxonomy_fetcher.py:158-189 | a fresh taxonomy rooted at the given class, built against the endpoint's answers to the subclass queries, with the properties of `ExpandFrom` |
| Builder.ProductiveRounds | src/dbp_taxonomy_fetcher.py:167-188 | when only the last round created nothing, the number of rounds that created a class is the number of rounds minus one |
| Builder.OneBelowFather | src/dbp_taxonomy_fetcher.py:180 | below a level-0 root, every created class is one level below its father |
| Builder.LevelsAppend | src/dbp_taxonomy_fetcher.py:180-185 | children created for a node at the level below it keep every node correctly placed |
| CheckpointSchedule.Fetches | src/dbp_taxonomy_fetcher.py:264-267 | the fetch counter never exceeds the number of visits |
| CheckpointSchedule.Schedule | src/dbp_taxonomy_fetcher.py:257-262 | at most one checkpoint per visit, each at a multiple of 1000 no larger than the counter, in non-decreasing order, and at least one in a non-empty run that fetched fewer than 1000 |
| CheckpointSchedule.FirstCheckpointAtZero | src/dbp_taxonomy_fetcher.py:257-262 | the first visit is preceded by a checkpoint at count 0 |
| CheckpointSchedule.EveryBatchCheckpointed | src/dbp_taxonomy_fetcher.py:260-262 | every multiple of 1000 the counter has passed was checkpointed |
| CheckpointSchedule.AtMostOneBatchUnsaved | src/dbp_taxonomy_fetcher.py:257-267 | at any point, at most 1000 fetches are newer than the last checkpoint |
| CheckpointSchedule.ResumedRunOnlyCheckpoints | src/dbp_taxonomy_fetcher.py:255-267 | a run over instances that all have abstracts fetches nothing and writes a checkpoint at 0 before every visit |
| CheckpointSchedule.RepeatsWhileIdle | src/dbp_taxonomy_fetcher.py:257-262 | while the counter rests on a multiple of 1000, each visit that fetches nothing repeats the checkpoint |
| Collector.InstanceUris | src/dbp_taxonomy_fetcher.py:225-229 | no URIs for a failed query; otherwise one URI per row, in row order: `<`, the row's Concept value, `>` |
| Collector.FindInstancesOfClass | src/dbp_taxonomy_fetcher.py:221-230 | one fresh instance per row in row order, with URI `<` + Concept value + `>`, pairwise different and without abstracts; none when the query fails |
| Collector.AddAll | src/dbp_taxonomy_fetcher.py:236-237 | the class's instance set grows by exactly the given instances |
| Collector.CollectFor | src/dbp_taxonomy_fetcher.py:236-237 | one class's visit adds exactly the instances found for its name |
| Collector.CollectNext | src/dbp_taxonomy_fetcher.py:235-237 | one more visit keeps the collection invariant: every class holds its earlier instances plus those found on its visits so far |
| Collector.AddInstancesFrom | src/dbp_taxonomy_fetcher.py:233-238 | after the walk, each class holds its earlier instances plus those found on its visits; each visit's instances are fresh, have the reported URIs and no abstract; children unchanged |
| Collector.AddInstancesToTaxClasses | src/dbp_taxonomy_fetcher.py:233-238 | the same, visiting the registry's classes against the endpoint's answers to instance queries |
| Collector.FoundForOnce | src/dbp_taxonomy_fetcher.py:235-237 | a class visited once collects exactly what was found on that visit |
| Collector.FoundForUnvisited | src/dbp_taxonomy_fetcher.py:235-237 | a class not visited collects nothing |
| Collector.AbstractOf | src/dbp_taxonomy_fetcher.py:243-248 | `""` for a failed query or an answer without rows; otherwise the first row's abstract value |
| Collector.FetchAbstract | src/dbp_taxonomy_fetcher.py:241-249 | the abstract of a resource is the first row's value in the answer to its abstract query, or `""` when that query fails or finds nothing |
| Collector.NoAnswerNoAbstract | src/dbp_taxonomy_fetcher.py:241-249 | a failed query or an answer without rows gives the empty abstract |
| Collector.FirstRowAbstract | src/dbp_taxonomy_fetcher.py:244-246 | otherwise the abstract is the first row's value, whatever later rows hold |
| Collector.BatchIsProgressStep | src/dbp_taxonomy_fetcher.py:257-260 | a count that is a multiple of 1000 is a multiple of 100, so the nested checkpoint test is reached |
| Collector.Report | src/dbp_taxonomy_fetcher.py:257-263 | the report before a visit records a checkpoint exactly when the count is a multiple of 1000 |
| Collector.VisitNext | src/dbp_taxonomy_fetcher.py:256-267 | one visit keeps the abstract invariant and extends the fetch count and the checkpoint schedule by that visit |
| Collector.FetchInto | src/dbp_taxonomy_fetcher.py:264-266 | visiting an instance without an abstract stores the fetched abstract in it |
| Collector.FetchedSkip | src/dbp_taxonomy_fetcher.py:264 | visiting an instance that has an abstract changes nothing |
| Collector.AddAbstractsFrom | src/dbp_taxonomy_fetcher.py:251-268 | afterwards every instance has an abstract; one that had one is unchanged and caused no fetch; each other gets its fetched abstract; the counter is the number of instances that lacked one; checkpoints are the schedule of the visits |
| Collector.AddAbstractsToInstances | src/dbp_taxonomy_fetcher.py:251-268 | walking every instance of every class of the registry (the visits list exactly those), afterwards every instance of the registry's classes has an abstract and the counter is the number of the registry's instances that lacked one; per visit the same as `AddAbstractsFrom`, against the endpoint's answers to the English abstract queries |
| Collector.FetchesCountFirstVisits | src/dbp_taxonomy_fetcher.py:253-267 | when exactly the first visits of instances lacking an abstract fetch, the counter is the number of such instances |
| Collector.ExportDir | src/dbp_taxonomy_fetcher.py:276-277 | the directory ends with the separator, added only when missing |
| Collector.ExportDirIdempotent | src/dbp_taxonomy_fetcher.py:276-277 | adding the separator twice is adding it once |
| Collector.ExportFileName | src/dbp_taxonomy_fetcher.py:282 | the file name is the directory (with its separator), then the URI's local name, which holds no separator, then `.txt` |
| Collector.ExportFileNameOf | src/dbp_taxonomy_fetcher.py:282 | the abstract of `p/x>` is written to `x.txt` in the directory |
| Collector.ExportsEveryAbstract | src/dbp_taxonomy_fetcher.py:278-284 | every instance with an abstract has it written to the file named after its URI |
| Collector.ExportsOnlyAbstracts | src/dbp_taxonomy_fetcher.py:278-284 | every write is the abstract of a visited instance that has one, to the file named after its URI |
| Collector.ExportAbstracts | src/dbp_taxonomy_fetcher.py:278-284 | the export loop produces, in visit order, one (file name, text) pair per instance with an abstract and skips the others; every instance of the registry's classes with an abstract is written to the file named after its URI, and every write is such an instance's abstract |
| Collector.ExportsOfRegistry | src/dbp_taxonomy_fetcher.py:278-284 | when the visits list exactly the instances of the registry's classes, the writes are exactly the abstracts of those instances that have one, each to the file named after its URI |

## Left out

- The network: `fire_query` and the SPARQL client (src/dbp_taxonomy_fetcher.py:147-157) are replaced by the endpoint oracle. The per-round client session is not modelled.
- `if not results` also skips an empty result object. The model treats only a failed query (`None`) that way: every answer has a head and a list of rows.
- Rows that lack a selected variable raise `KeyError` in the source. The model requires them away: `AnswersSubclassQueries`, `Binds` and `FirstBinds` demand that every row, or the first row for abstracts, binds the variable that is read. This requirement is on Builder.ExpandFrom, Builder.GenerateTaxonomyFromClass, Collector.AddInstancesToTaxClasses and Collector.AddAbstractsToInstances.
- Builder.GenerateTaxonomyFromClass: requires a rank on class names that strictly decreases from a class to each reported subclass. The source has no cycle detection and does not terminate on a cyclic subclass relation; the model covers only finite acyclic answers.
- Taxonomy.Taxonomy.Repr: requires the children links to form a finite tree (the ghost `Tree` witness). On a cyclic structure the source recurses until Python's recursion limit stops it with a `RuntimeError`.
- Taxonomy.Taxonomy.Default: makes a fresh default root on every call. In the source the default root of `Taxonomy.__init__` (src/taxonomy.py:46) is evaluated once, when the class is defined, so every taxonomy built without a root shares that one root object.
- Serialisation: pickling the taxonomy to a temporary file is not modelled. A checkpoint is the counter value appended to a ghost log. `deserialize_object`, its `IOError` path and the time-based name of the temporary file are left out.
- Progress output on standard output, `print_sparql_results`, logging, option parsing and the `__main__` driver are I/O and command-line glue and are not modelled.
- Export I/O: creating the directory and writing files are not modelled. The export is the list of (file name, text) pairs that would be written. The path separator is taken to be `/`.
- Iteration order: the order of the registry's values and of each instance set is the host's. It is a parameter (`cs`, `visits`) of the collectors, and nothing proved depends on it. Collector.AddAbstractsToInstances and Collector.ExportAbstracts require the visits to list exactly the instances of the registry's classes; their order, and whether an instance held by two classes is visited twice, is left open.
- The shared mutable default `children=[]` (src/taxonomy.py:8): in the source every class built without a child list shares one list object. These are the default root (src/taxonomy.py:46), the driver's root (src/dbp_taxonomy_fetcher.py:304) and the registry's copy of every root (src/taxonomy.py:50). A child appended to the root therefore also appears among the copy's children. The model gives each class its own list. The builder passes a fresh list to every class it creates, so only those root classes are affected.
- Python's `isinstance` assertions are enforced by the types.
- `hasattr(instance, 'abstract')` is modelled by an optional abstract. An empty abstract counts as present, as in the source.
