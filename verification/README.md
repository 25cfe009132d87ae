# Tiderace shim: a verified model

A Dafny model of the decisions the Python shim of tiderace makes, and of the scheduler model in its
benchmark harness, with proofs about every input, every run and every order of events. The shim
discovers fixtures, chooses which tests a run selects, sets fixtures up and tears them down across a
whole run, runs each test on a tier that isolates it (in-process with a restore, in a fork, in one
child per module), and reports what each test depends on.

`dafny verify dfyconfig.toml` checks everything.

| file | what it models |
|---|---|
| Fixtures.dfy, Overrides.dfy | the fixture registry and nearest-override resolution, in terms of conftest directories and classes |
| DepthFirst.dfy, Closures.dfy | the closure walk |
| SetUpTrace.dfy, Engines.dfy | the stack of wider-scope fixtures over a run, cases and their own fixtures |
| Arguments.dfy, MixedScopes.dfy, Instances.dfy, SharedNames.dfy | look-up by name against resolution by definition, for function-scoped fixtures and for all scopes on an engine in any state; which instance it gives |
| Isolation.dfy, Registries.dfy | snapshot, verdict and restore of a module's globals, of the environment and of other modules' containers, on a heap with aliasing |
| StableSort.dfy, ListScheduling.dfy, AnalyseBins.dfy, Tightness.dfy, Packing.dfy | the three greedy schedulers and their worst-case bounds |
| SelectionGrammar.dfy, Keywords.dfy | the `-k` / `-m` grammar from characters to trees and back, three-valued evaluation, the two-phase `-k` |
| Plans.dfy, Disambiguation.dfy, Execution.dfy, KeywordRuns.dfy | the products a node expands into, the ids of its variants, the order they run in, and which of them `-k` makes run |
| Frames.dfy | the length-prefixed frames and the request loop |
| Tiers.dfy, ModuleChildren.dfy | the choice of tier and the life of the module child |
| Footprints.dfy, CarriedCaches.dfy, StaleAnswers.dfy | the import closure and its memos while `sys.path` changes, and the cache carried from run to run |
| NodeIds.dfy, Prelude.dfy | node ids and paths, and shared helpers |

A class stands for a Python object whose fields change; its methods are proved to leave the state a
function of the old one gives, or to have a stated effect on the heap, and the theorems are about those
functions over whole runs. Clocks,
processes, fixture bodies, file contents, `json` and the environment a child lives in are parameters
or nondeterministic choices: a fixture body is any function of the definition, the argument values and
how many bodies ran before; a read returns any non-empty piece; a child may fail to take a request,
hang, die, send garbage or reply.

## Where a natural claim fails

- A test can be handed the value of a definition its name does not resolve to. Two definitions may share
  an instance, since the key of session, module and class scopes leaves out the location
  (`MixedScopes.OwnInstanceIff`, `SharedNames.SecondSessionDefinitionIsNeverBuilt`); or each has its own,
  as package fixtures of two directories do, and the newer entry of the name is found, since a package
  key is never stale (`SharedNames.PackageFixtureOfAnotherDirectory`); or a wider fixture asks for a
  function-scoped one, which nothing refuses, and finds an older entry of the name
  (`SharedNames.ScopeMismatchIsServed`). When any of it happens is
  `MixedScopes.MixedScopeArgumentsAreRightIff`.
- A test can be handed another module's instance of the right module fixture, when session fixtures on
  top keep the instances of both modules live (`Instances.OtherModulesInstanceIsServed`, and
  `Instances.OwnInstancesAreGivenIff` for when).
- The documentation of `_location_depth` promises that a nearer conftest overrides a farther one in both
  directions. It does not when the nearer one's path, below the run root, ends in `.py` or holds `::`,
  which are read as a module and as a class, or starts with two dots, which is read as above the root and
  loses unless the farther one is further above (`Overrides.NearerConftestOverridesIff`,
  `Overrides.MisreadDirectoryLoses`, `Overrides.PyDirectoryLoses`).
- The documentation of `_register_class_fixtures` promises that an override in a subclass beats its base.
  All visible class fixtures rank the same and the first registered wins, so the base does, its class
  coming first (`Overrides.ClassFixtureIsResolvedIff`, `Overrides.BaseClassWins`).
- The documentation of `_file_deps` says `sys.path` is fixed for the life of a process. Tests and imports
  change it, and the memo of resolutions leaves it out of its key, so that one module's closure depends
  on what `sys.path` was when another's was walked, and a list may be recorded under a `sys.path` it was
  not resolved with (`Footprints.MemoIsRightIff`, `CarriedCaches.RecordIsTrueIff`,
  `StaleAnswers.PathChangeIsMissed`).
- The stamp of a carried dependency list determines the parse of a file, not what its imports resolve
  to: a new file is left out of a closure, a removed one stays in, and a further run over the same tree
  repeats the error (`CarriedCaches.WrongIffOvertaken`, `CarriedCaches.ReachIsRightIff`,
  `StaleAnswers.NewFileIsMissed`, `CarriedCaches.SecondRunRepeats`).
- The comment at engine.py:89 says the stack is widest first. It is in set-up order, so a stale fixture
  can stay (`Engines.NothingStaleRemainsIff`, `Engines.LateSessionFixtureHidesStaleModule`).
- The documentation of `route` says the restorability snapshot is taken only when the answer depends on
  it. It is also taken when something else already makes the node fork (`Tiers.SnapshotDecidesIff`).
- Globals made to share a container cannot all be restored (`Isolation.RestoreShared`, which gives the
  exact condition, and `Isolation.AliasedGlobalsCannotBothBeRestored`).
- Generated variant ids can repeat one another (`Disambiguation.DistinctIffClean` and its three
  witnesses).
- Under `no_fork` a module's tests can be split between its child and the parent
  (`ModuleChildren.NeverSplitIff`, `ModuleChildren.SplittingRunSplits`).

## Model

| member | source | states |
|---|---|---|
| Fixtures.Registry.Add | engine/py-shim/tiderace_shim/fixtures.py:213-216 | adding a definition appends it to what the registry holds, and both indexes (by name in registration order, by provided type) stay the ones of that list |
| Fixtures.Registry.ResolveName | engine/py-shim/tiderace_shim/fixtures.py:226-241 | the loop over the visible definitions returns what nearest-override resolution of the registered list gives |
| Fixtures.Registry.SpecificityFor | engine/py-shim/tiderace_shim/fixtures.py:258-264 | the ceiling of a definition is its specificity here, none when it is not visible |
| Fixtures.Registry.AutouseFor | engine/py-shim/tiderace_shim/fixtures.py:266-284 | every visible autouse definition, as often as it was registered and no other, widest scope first |
| Fixtures.AutouseIsWidestFirst | engine/py-shim/tiderace_shim/fixtures.py:266-284 | the sort loses and adds nothing, stands session before package before module before class before function, and keeps each scope in the order of the registry: by first registration of the name, then of the definition |
| Fixtures.NamesByFirst | engine/py-shim/tiderace_shim/fixtures.py:213-216 | the names of the index stand in order of their first registration |
| Fixtures.NearestIsFirstMostSpecific | engine/py-shim/tiderace_shim/fixtures.py:235-241 | the definition picked is visible and under the ceiling, none in scope is more specific, and among equals it is the first registered (all class fixtures score alike); nothing is picked only when nothing qualifies |
| Fixtures.ResolveFinds | engine/py-shim/tiderace_shim/fixtures.py:226-241 | what a name resolves to is registered under that name, visible here and below the ceiling asked for |
| Overrides.ConftestIsVisibleIff | engine/py-shim/tiderace_shim/fixtures.py:243-256 | a conftest's fixture is visible to a test its directory is around if and only if the directory's path neither ends in .py nor holds ::; to any other test if and only if the path is misread: as starting above the run root, or as the test's own module or class |
| Overrides.NearerConftestOverridesIff | engine/py-shim/tiderace_shim/fixtures.py:226-256 | of two conftests around a test, in either order of registration, the inner one's definition is what the name resolves to if and only if its path reads as a directory's and, should it start with two dots, the outer one is further above the root than the path is long (or as far and registered later); else it is the outer one's, if that is visible |
| Overrides.ConftestIsResolvedIff | engine/py-shim/tiderace_shim/fixtures.py:226-256 | of any number of conftests around a test the one resolved to is the one that beats each other one pairwise in that sense |
| Overrides.MisreadDirectoryLoses | engine/py-shim/tiderace_shim/fixtures.py:26-41 | in a directory called ..foo the run root's fixture wins over the directory's own, which is seen from everywhere |
| Overrides.PyDirectoryLoses | engine/py-shim/tiderace_shim/fixtures.py:253-256 | in a directory called web.py the run root's fixture wins over the directory's own, which no test sees, in either order of registration |
| Overrides.ClassFixtureIsResolvedIff | engine/py-shim/tiderace_shim/fixtures.py:247-252 | a class fixture, of the test's own class or of a base, is what its name resolves to if and only if no other visible class fixture of the name was registered before it and no conftest of the name lies 20,000 directories deep |
| Overrides.ModuleFixtureIsResolvedIff | engine/py-shim/tiderace_shim/fixtures.py:226-256 | a fixture of the test's own module is what its name resolves to if and only if no visible class fixture of the name exists, no other of the module was registered before it, and no conftest of the name lies 10,000 directories deep |
| Overrides.ClassOverrideSkipsBases | engine/py-shim/tiderace_shim/fixtures.py:228-237 | a class fixture that asks for the name it overrides is never given a base class's |
| Overrides.BaseClassWins | engine/py-shim/tiderace_shim/discovery.py:653-659 | a base class registered before its subclass: the subclass's tests are given the base's fixture, and below the subclass's own there is nothing to extend |
| Closures.SpecificityIdentifies | engine/py-shim/tiderace_shim/fixtures.py:230-256 | of the definitions a lookup can ever give here, name and specificity identify one: no hypothesis about ties is needed |
| Closures.ComputeClosure | engine/py-shim/tiderace_shim/fixtures.py:287-327 | the recursive walk with its two sets computes the depth-first listing of the resolution graph from the autouse, extra and requested names |
| Closures.TargetIsNearest | engine/py-shim/tiderace_shim/fixtures.py:299-314 | what a fixture is given for a name is the first registered of the most specific visible definitions of it; for its own name, of those less specific than itself |
| Closures.ClosureWalk.Visit | engine/py-shim/tiderace_shim/fixtures.py:299-314 | one visit extends the walk by exactly what depth-first search from the resolved definition adds, the ceiling applying to a request for the own name |
| Closures.ClosureIsExact | engine/py-shim/tiderace_shim/fixtures.py:287-327 | on every registry, cyclic ones included, the closure holds exactly the definitions reachable from its roots, each once |
| Closures.ClosureOrder | engine/py-shim/tiderace_shim/fixtures.py:287-327 | each definition stands after everything it resolves to if and only if no needed definition is on a cycle |
| Closures.ClosureFollowsRootOrder | engine/py-shim/tiderace_shim/fixtures.py:316-327 | the closure of the autouse names is a prefix of that with the extra names, which is a prefix of the whole |
| Closures.OverridesComeLater | engine/py-shim/tiderace_shim/fixtures.py:308-310 | through an override chain of any length, a less specific definition of a name is set up before a more specific one |
| Closures.ByNameIsByDefinition | engine/py-shim/tiderace_shim/fixtures.py:226-327 | when a definition is set up, the latest earlier one carrying a name it asks for is exactly the definition the registry resolves that name to (the shadowed one for its own name) |
| Closures.TestArgumentIsNearest | engine/py-shim/tiderace_shim/fixtures.py:226-327 | after the whole order, the latest definition of a name the test asks for is its nearest one |
| DepthFirst.ListsExactlyReached | engine/py-shim/tiderace_shim/fixtures.py:293-314 | the walk on any finite graph terminates and lists exactly the nodes reached from the roots, once each |
| DepthFirst.DepsFirstIffAcyclic | engine/py-shim/tiderace_shim/fixtures.py:293-314 | its listing puts successors first if and only if nothing reached lies on a loop |
| DepthFirst.EarlierRootsFirst | engine/py-shim/tiderace_shim/fixtures.py:316-327 | listing from more roots only appends to the listing from the first ones |
| Arguments.FunctionScopedArgumentsAreRight | engine/py-shim/tiderace_shim/engine.py:902-915 | on an engine in any state, storing and reading by name only, the body of every function-scoped fixture of an acyclic closure is given, parameter by parameter, the values of exactly the definitions its parameters resolve to; set-up stops only at a parameter that names nothing or a body that raises on those right values; each requested name is then found at its nearest definition |
| MixedScopes.TestSetsUpInOrder | engine/py-shim/tiderace_shim/engine.py:106-130 | on an engine in any state, a test sets up first the wider definitions whose key is neither live after stale ones went nor taken by an earlier one, then its function-scoped ones, the body of each given, parameter by parameter, the values its names find below it; it stops only at a parameter that names nothing or a body that raises |
| MixedScopes.EachLookupIsLatest | engine/py-shim/tiderace_shim/engine.py:99-130 | what a parameter is given is the latest definition of its name among what was kept and what was set up before |
| MixedScopes.MixedScopeArgumentsAreRightIff | engine/py-shim/tiderace_shim/engine.py:106-130 | on an engine in any state, for any acyclic closure: each fixture is given exactly the definitions its parameters resolve to, and each requested name is found at its nearest definition, if and only if that definition is among those set up with no function-scoped and no more specific one of its name behind it, or none of its name is set up and its own entry is the newest of its name that was kept |
| Instances.OwnInstancesAreGivenIff | engine/py-shim/tiderace_shim/engine.py:99-130 | on an engine in any state, for any acyclic closure: each argument and each requested name is the test's own instance of what it resolves to, of its module, class or package, if and only if that definition is among those set up with no other of its name behind it, or none of its name is set up and the newest entry of the name that was kept is of that definition and of the test's scope |
| Instances.OneInstanceIff | engine/py-shim/tiderace_shim/fixtures.py:343-353 | two definitions are one instance for two tests if and only if name and scope agree and: for package scope the location, for module scope the module, for class scope the module and the class, for function scope the whole id |
| Instances.OutsideClassesIff | engine/py-shim/tiderace_shim/fixtures.py:343-353 | for tests outside of any class, a class-scoped fixture is one instance if and only if the test is the same |
| Instances.StaleIff | engine/py-shim/tiderace_shim/engine.py:137-142 | what one test set up is stale for another if and only if it is of a module or class the other is not in; never if of a session or package |
| Instances.StagesAreByScope | engine/py-shim/tiderace_shim/engine.py:118-130 | what a sync sets up is wider than a function and what a case sets up is not |
| Instances.OtherModulesInstanceIsServed | engine/py-shim/tiderace_shim/engine.py:99-142 | four tests of two modules and a third of the first, from the registry up: nothing is stale, nothing is set up, and the module fixture handed out is the right definition's and the other module's instance |
| MixedScopes.StagesAreSetUpOrder | engine/py-shim/tiderace_shim/engine.py:118-130 | setting up the wider fixtures first and the function-scoped ones after keeps requests before requesters |
| MixedScopes.FreshEngineArgumentsAreRight | engine/py-shim/tiderace_shim/engine.py:106-130 | with nothing live and no key shared, every argument and every requested name is the definition it resolves to |
| MixedScopes.OwnInstanceIff | engine/py-shim/tiderace_shim/fixtures.py:343-353 | after a sync on any reachable state every wider definition has an instance of its own if and only if no two of the closure share a key and every kept entry under the key of one is its own |
| SharedNames.PackageFixtureOfAnotherDirectory | engine/py-shim/tiderace_shim/engine.py:99-104 | two package fixtures of one name, from the registry up: with no key shared and nothing stale, a test in a/ is handed the run root's value after a test at the root |
| SharedNames.SecondSessionDefinitionIsNeverBuilt | engine/py-shim/tiderace_shim/fixtures.py:343-353 | two session fixtures of one name in different directories, from the registry up: the test that resolves to the second is handed the first one's value, and the second is never set up |
| SharedNames.ScopeMismatchIsServed | engine/py-shim/tiderace_shim/engine.py:118-130 | a package fixture whose parameter resolves to a function-scoped one is given a session fixture of that name an earlier test left live |
| Engines.Engine.ValueOf | engine/py-shim/tiderace_shim/engine.py:99-104 | the value in scope under a name is the newest live entry of that name |
| Engines.Engine.SetUpFixture | engine/py-shim/tiderace_shim/engine.py:127-129 | one set-up: arguments read by name, the body run, the handle traced; nothing changes when an argument is missing |
| Engines.Engine.TeardownStale | engine/py-shim/tiderace_shim/engine.py:132-142 | the loop pops exactly what the stale-suffix specification pops |
| Engines.Engine.SyncWider | engine/py-shim/tiderace_shim/engine.py:106-130 | the stack after a sync, and whether it raised, are those of the specification: stale ones down, then each missing wider fixture up in closure order |
| Engines.Engine.RunCase | engine/py-shim/tiderace_shim/engine.py:907-951 | a case leaves the wider stack as it was; its own fixtures come down in reverse however far set-up got |
| Engines.CombosInTurn | engine/py-shim/tiderace_shim/engine.py:449-495 | combinations run one after the other and stop at the first whose fixtures cannot be set up |
| Engines.OneCombo | engine/py-shim/tiderace_shim/engine.py:449-495 | a combination with no selected case does nothing; any other syncs first and then runs its cases |
| Engines.Engine.TeardownAll | engine/py-shim/tiderace_shim/engine.py:1047-1053 | everything left live is torn down from the top |
| Engines.EveryRunIsWellNested | engine/py-shim/tiderace_shim/engine.py:106-144 | over every run of tests in this process and of teardowns before a module child is forked, set-ups that raise midway included, the set-up and teardown trace is well nested and nothing is live after the final teardown |
| SetUpTrace.TornDownExactlyOnce | engine/py-shim/tiderace_shim/invoke.py:141-157 | in a well-nested trace each completed set-up is torn down exactly once, after it |
| SetUpTrace.TeardownReversesSetUp | engine/py-shim/tiderace_shim/engine.py:949-951 | of two set-ups, the later is torn down first unless the earlier was gone before it began |
| SetUpTrace.SourcesOutlast | engine/py-shim/tiderace_shim/engine.py:99-144 | a fixture is torn down before every one whose value it was built from |
| Engines.ReachableStatesAreSound | engine/py-shim/tiderace_shim/engine.py:99-144 | in every reachable state instance keys are unique and each live fixture has the entries its arguments were read from below it |
| Engines.TeardownStaleIsExact | engine/py-shim/tiderace_shim/engine.py:137-142 | what goes is exactly the longest suffix of stale entries, newest first |
| Engines.NothingStaleRemainsIff | engine/py-shim/tiderace_shim/engine.py:137-142 | nothing stale stays on the stack if and only if the stale entries were its top ones |
| Engines.SortedStackLeavesNothingStale | engine/py-shim/tiderace_shim/engine.py:132-142 | on a stack that is widest first, all of whose entries belong to one earlier test, nothing stale stays |
| Engines.LateSessionFixtureHidesStaleModule | engine/py-shim/tiderace_shim/engine.py:89-89 | the stack is in set-up order, not rank order: a session fixture first requested late keeps a stale module fixture alive |
| Engines.SyncMakesWiderLive | engine/py-shim/tiderace_shim/engine.py:118-130 | after a sync that did not raise, every wider definition of the closure has its key live |
| Engines.SyncIsIdempotent | engine/py-shim/tiderace_shim/engine.py:106-130 | a second sync for the same test and closure changes nothing, whatever the bodies would do |
| Isolation.Snapshot | engine/py-shim/tiderace_shim/isolation.py:30-51 | the loop over the globals gives the snapshot: eligible names only, a copy of the contents or the opaque mark |
| Isolation.PurityVerdict | engine/py-shim/tiderace_shim/isolation.py:54-66 | the verdict is pure if and only if every name that can be judged is there on both sides and equal, and the environment is unchanged; a reason names one that is not |
| Isolation.PureIff | engine/py-shim/tiderace_shim/isolation.py:30-66 | measured against the snapshot taken before it, whatever a test did is pure if and only if every global but the dunder names, functions, classes and modules, and the environment, has the value it had; a global that cannot be copied passes |
| Isolation.RestoreInPlace | engine/py-shim/tiderace_shim/isolation.py:69-95 | handled if and only if the live value is a container of the saved type; then its contents are the saved ones and its identity is kept, else nothing changes |
| Isolation.RestoreName | engine/py-shim/tiderace_shim/isolation.py:156-160 | the name holds its snapshot again: the same container when it could be refilled, a fresh copy otherwise; no other name is rebound |
| Isolation.RestoreShared | engine/py-shim/tiderace_shim/isolation.py:143-163 | in whatever order names are visited: the environment is its snapshot; containers of unchanged type keep their identity; added names are gone; the verdict afterwards is pure, and every snapshotted global holds its snapshot, if and only if names sharing one container had equal snapshots; a test called pure leaves neither a binding nor contents to change |
| Isolation.AliasedGlobalsCannotBothBeRestored | engine/py-shim/tiderace_shim/isolation.py:150-160 | two globals the test made share one list cannot both be put back |
| Registries.Delta | engine/py-shim/tiderace_shim/isolation.py:260-280 | the labels reported are those whose container holds an entry the test code added; equal contents are skipped without losing one |
| Registries.RestoreList | engine/py-shim/tiderace_shim/isolation.py:303-307 | a list keeps, in order, everything but what the suite added |
| Registries.RestoreByName | engine/py-shim/tiderace_shim/isolation.py:298-311 | a dict or set loses exactly the names the suite added, one at a time |
| Registries.RestoreRegistries | engine/py-shim/tiderace_shim/isolation.py:283-318 | whichever labels reach a container, it loses exactly what they find added and the rest stays in place; the verdict taken next finds nothing; something is changed if and only if the verdict taken first would have found something |
| AnalyseBins.Steal | benchmarks/harness/analyse_bins.py:68-72 | the loads are those of greedy hand-out, longest first |
| AnalyseBins.StealIsFourThirdsOptimal | benchmarks/harness/analyse_bins.py:68-72 | the makespan is at most 4/3 - 1/(3m) times that of any assignment of the same items to m workers |
| Tightness.FourThirdsIsTight | benchmarks/harness/analyse_bins.py:68-72 | the factor is reached for every number m of workers, by 2m+1 items that finish at 4m-1 where 3m is possible |
| Tightness.WorstCaseExists | benchmarks/harness/analyse_bins.py:68-72 | such items, under distinct ids, and such an assignment exist for every m |
| AnalyseBins.GatherGroups | benchmarks/harness/analyse_bins.py:76-78 | the loop over the items builds the module totals and counts |
| AnalyseBins.GroupSteal | benchmarks/harness/analyse_bins.py:75-83 | the loads are those of greedy hand-out of whole modules, by count or by time |
| AnalyseBins.LocalityKeyIs | benchmarks/harness/analyse_bins.py:29-30 | the module of an item is what precedes the first :: of its id, or all of it |
| AnalyseBins.LargestModulesFirst | benchmarks/harness/analyse_bins.py:75-83 | all modules are handed out, those of more items, or of more time, first, and in order of first item among equals |
| AnalyseBins.GroupsAreModules | benchmarks/harness/analyse_bins.py:76-78 | the groups have distinct keys and hold exactly the summed time and number of items of each module |
| AnalyseBins.GroupStealBound | benchmarks/harness/analyse_bins.py:75-83 | in either order, m times the load of any worker is at most the total plus (m-1) times the longest module |
| AnalyseBins.GroupStealIsFourThirdsOptimal | benchmarks/harness/analyse_bins.py:75-83 | by time, at most 4/3 - 1/(3m) times any assignment that keeps modules whole |
| ListScheduling.HandOut | benchmarks/harness/analyse_bins.py:69-72 | choosing the first least-loaded worker each time, in place, computes the greedy loads |
| ListScheduling.LoadsConserve | benchmarks/harness/analyse_bins.py:69-72 | the loads of any assignment add up to the queue |
| ListScheduling.ListSchedulingBound | benchmarks/harness/analyse_bins.py:69-72 | greedy in any order: m times any load is at most the total plus (m-1) times the largest unit |
| ListScheduling.LongestFirstBound | benchmarks/harness/analyse_bins.py:69-72 | greedy longest first: 3m times any load is at most (4m-1) times any bound another assignment meets |
| StableSort.SortedPermutes | benchmarks/harness/analyse_bins.py:70-70 | the sort keeps every element, as often as it was there |
| StableSort.SortedInOrder | engine/py-shim/tiderace_shim/fixtures.py:283-283 | under a total preorder every element may precede all after it |
| StableSort.SortedIsStable | engine/py-shim/tiderace_shim/fixtures.py:283-283 | elements that may stand either way round stay as they stood |
| Packing.Gather | benchmarks/harness/analyse_bins.py:49-51 | the modules in order of first item, each with its items in order |
| Packing.Pack | benchmarks/harness/analyse_bins.py:48-65 | the loops over modules and items, with a running load, place the units of the split rule greedily |
| Packing.CapIsShare | benchmarks/harness/analyse_bins.py:53-53 | with w workers the cap is the one whole number c with c*w <= total * threshold < (c+1)*w |
| Packing.HeavyModulesAreSplit | benchmarks/harness/analyse_bins.py:58-61 | a module of several items above that share, which is at least one unit, is handed out item by item |
| Packing.HeaviestModulesFirst | benchmarks/harness/analyse_bins.py:54-55 | all modules are placed, heaviest first, in order of their keys among equals |
| Packing.HeaviestItemsFirst | benchmarks/harness/analyse_bins.py:59-59 | and so are the items of a split module, in collection order among equals |
| Packing.PackPartitions | benchmarks/harness/analyse_bins.py:48-65 | every item lands in exactly one bin, once |
| Packing.LoadIsBinWeight | benchmarks/harness/analyse_bins.py:56-64 | the running load of a bin is the summed weight of its items |
| Packing.PackKeepsSmallModulesWhole | benchmarks/harness/analyse_bins.py:58-64 | a module at or below the cap is in one bin, together and in order |
| Packing.PackBound | benchmarks/harness/analyse_bins.py:48-65 | when the cap is positive, m times any bin is at most the total plus (m-1) times the larger of the cap and the heaviest item |
| SelectionGrammar.Tokenize | engine/py-shim/tiderace_shim/selection.py:47-61 | the scan over positions gives the tokens, or the first character that fits nowhere |
| SelectionGrammar.LexRefusesOnlyStrays | engine/py-shim/tiderace_shim/selection.py:47-61 | a text has tokens if and only if each of its characters is a space, a parenthesis or an identifier character |
| SelectionGrammar.LexNamesFirstStray | engine/py-shim/tiderace_shim/selection.py:47-61 | and the error names the first one that is none of them |
| SelectionGrammar.AsciiClasses | engine/py-shim/tiderace_shim/selection.py:26-61 | which characters below 128 an identifier is made of, and which are spaces |
| SelectionGrammar.ParseExpr | engine/py-shim/tiderace_shim/selection.py:35-106 | the recursive-descent parser over one moving position returns what the grammar functions return, tree or error, and terminates |
| SelectionGrammar.Parser.ReadOr | engine/py-shim/tiderace_shim/selection.py:71-76 | one level of it: the tree, the error and the position reached |
| SelectionGrammar.ParserIsExact | engine/py-shim/tiderace_shim/selection.py:71-106 | a token list parses to a tree if and only if the grammar (not over and over or, parentheses transparent) derives that tree from it |
| SelectionGrammar.GrammarIsUnambiguous | engine/py-shim/tiderace_shim/selection.py:71-98 | no token list stands for two trees |
| SelectionGrammar.RefusedIffUngrammatical | engine/py-shim/tiderace_shim/selection.py:35-106 | a text is refused if and only if a character fits nowhere or no tree derives its tokens |
| SelectionGrammar.ErrorIsFirstMisfit | engine/py-shim/tiderace_shim/selection.py:62-106 | the recursive descent accepts, and refuses for the same reason at the same token, exactly what one pass does that counts open parentheses and knows whether an operand is due |
| SelectionGrammar.LexUndoesSpell | engine/py-shim/tiderace_shim/selection.py:26-61 | spaced-out tokens are read back as themselves |
| SelectionGrammar.ParseUndoesPrint | engine/py-shim/tiderace_shim/selection.py:35-106 | every tree with non-keyword identifiers and at least two operands to each and/or prints, with only the parentheses it needs, to a text that parses back to it |
| SelectionGrammar.ParsedTreesPrintBack | engine/py-shim/tiderace_shim/selection.py:35-106 | every successful parse gives such a tree, so printing and parsing it again changes nothing |
| Keywords.EarlyVerdictsStand | engine/py-shim/tiderace_shim/selection.py:109-131 | Kleene evaluation with answers missing: a verdict already reached is the verdict under every completion |
| Keywords.FullVerdictsAreMeanings | engine/py-shim/tiderace_shim/selection.py:109-131 | with every answer in, the verdict is the Boolean meaning of the tree, for -m as for -k |
| Keywords.UnknownIsOpen | engine/py-shim/tiderace_shim/selection.py:109-131 | where no identifier stands twice, an unknown verdict can still come out either way: verdicts are given as early as they can be |
| Keywords.CharacterwiseLowersInPieces | engine/py-shim/tiderace_shim/selection.py:153-157 | lowering character by character meets the one assumption made of lower-casing |
| Keywords.CaseSegments | engine/py-shim/tiderace_shim/selection.py:200-205 | splitting a case id at :: splits its node id the same way even when the case text holds ::; only the last segment grows |
| Keywords.SelectedByName | engine/py-shim/tiderace_shim/selection.py:153-205 | -k x runs a test, or a case of it, if and only if x, in any case, is part of a name its path gives, of its class or any other name after its module, brackets included, or of a mark |
| Keywords.CasesMatchWhatTheirNodeMatches | engine/py-shim/tiderace_shim/selection.py:153-205 | an identifier that matches a node matches every one of its cases |
| Keywords.FinalVerdictIsSelection | engine/py-shim/tiderace_shim/selection.py:310-322 | a final verdict is never unknown: it is whether the tree holds of what the names match |
| Keywords.TwoPhasesSelectAsOne | engine/py-shim/tiderace_shim/engine.py:381-386 | deciding the node first and the undecided cases later keeps exactly the variants the expression selects by their own names |
| Plans.CrossAt | engine/py-shim/tiderace_shim/engine.py:363-367 | entry i of the nested comprehension pairs outer element i / n with inner element i % n |
| Plans.ProductAt | engine/py-shim/tiderace_shim/engine.py:341-351 | combination i of the axis product takes from each axis the value its mixed-radix digit names, the last axis varying fastest |
| Plans.ProductInOrder | engine/py-shim/tiderace_shim/plan.py:213-213 | of two combinations the later one is further along the first axis on which they differ |
| Plans.ChoiceHasPlace | engine/py-shim/tiderace_shim/plan.py:213-213 | every choice of one value per axis has a place in the product |
| Plans.PlaceHasOneChoice | engine/py-shim/tiderace_shim/plan.py:213-213 | and no place serves two choices |
| Disambiguation.Disambiguate | engine/py-shim/tiderace_shim/plan.py:346-368 | same length and order; a text that is alone stays as it is; the members of a clash are numbered from 0 in order |
| Disambiguation.DecimalReads | engine/py-shim/tiderace_shim/plan.py:366-368 | the number in an id is written in decimal, without leading zeros |
| Disambiguation.DistinctIffClean | engine/py-shim/tiderace_shim/plan.py:346-368 | the ids are distinct if and only if no lone text is what a member of a clash is numbered as, and: under the underscore rule, no repeated text ends in a digit while the text with _ is repeated too; without it, no repeated text is another one followed by a number ten times which is below how often the other occurs |
| Disambiguation.LoneTextMayBeTaken | engine/py-shim/tiderace_shim/plan.py:360-368 | generated ids are not checked again: a, a, a0 gives a0 twice |
| Disambiguation.StemsMayClash | engine/py-shim/tiderace_shim/plan.py:366-367 | 1, 1, 1_, 1_ gives 1_0 and 1_1 twice |
| Disambiguation.NumbersMayClash | engine/py-shim/tiderace_shim/plan.py:360-368 | without the underscore eleven times a and twice a1 gives a10 twice |
| Execution.Execute | engine/py-shim/tiderace_shim/engine.py:449-495 | the nested loops with a running index, and combinations skipped when nothing in them is selected, leave exactly the planned trace, up to the first combination whose fixtures cannot be set up; results are returned if and only if there is none |
| Execution.RunsExactlyTheSelected | engine/py-shim/tiderace_shim/engine.py:449-495 | without a set-up failure exactly the selected variants run, each once and in increasing order, and fixtures are synced for exactly the combinations with one of them |
| Execution.RunsUnderItsOwnName | engine/py-shim/tiderace_shim/engine.py:363-379 | variant i runs with combination i / per_combo and case i % per_combo, the pair its id was made from, under that id |
| KeywordRuns.RunsWhatKeywordSelects | engine/py-shim/tiderace_shim/engine.py:381-386 | a finished run ran variant i if and only if -k, read over the names of the very id i runs under, selects it |
| Execution.IndirectValuesGoToFixtures | engine/py-shim/tiderace_shim/engine.py:481-487 | over every run: each value of the case a variant ran with reached a fixture if indirect and the test otherwise, never both, and neither got anything else but the combination |
| Frames.Channel.ReadExactly | engine/py-shim/tiderace_shim/protocol.py:35-50 | however the stream is cut into pieces: the next n bytes, end of stream only when fewer are left, or late only under a deadline |
| Frames.Channel.ReadFrame | engine/py-shim/tiderace_shim/protocol.py:53-71 | a payload returned is the first frame of the stream; end of stream means there is none; a deadline never yields a wrong payload |
| Frames.Channel.WriteFrame | engine/py-shim/tiderace_shim/protocol.py:74-76 | exactly the encoded frame is written, nothing when the length does not fit 32 bits |
| Frames.HeaderIsLittleEndian | engine/py-shim/tiderace_shim/protocol.py:74-76 | a length is sent as four bytes, the least significant first, for every length below 2^32 |
| Frames.Channel.RunLoop | engine/py-shim/tiderace_shim/protocol.py:120-129 | the request loop handles the decoded frames in order until the end, a null or an exception, and writes exactly the replies |
| Frames.DecodeUndoesEncode | engine/py-shim/tiderace_shim/protocol.py:53-76 | reading the concatenated frames of any sendable payloads gives those payloads |
| Frames.CutStreamsDecodeWhatIsWhole | engine/py-shim/tiderace_shim/protocol.py:35-62 | a stream cut at any byte gives the frames that fit before the cut, as many as do |
| Frames.EncodeUndoesDecode | engine/py-shim/tiderace_shim/protocol.py:53-76 | any stream at all is its frames encoded again, then an incomplete rest |
| Frames.RepliesPairWithRequests | engine/py-shim/tiderace_shim/protocol.py:120-129 | over a conversation cut anywhere, the frames that come back answer the requests that arrived whole, one each and in order |
| Tiers.SnapshotDecidesIff | engine/py-shim/tiderace_shim/tiers.py:76-89 | the snapshot changes the answer if and only if it is consulted and nothing else makes the node fork; a recorded disturber asked to run in-process has it taken for nothing |
| Tiers.RouteIff | engine/py-shim/tiderace_shim/tiers.py:64-98 | for every tier, the exact options, record and snapshot answer under which a node is given it |
| ModuleChildren.RunsHereOnlyWhenSafe | engine/py-shim/tiderace_shim/tiers.py:64-98 | over every run, a node runs bare only when recorded pure; under restore only when not, restore is on and its module can be put back; otherwise in this process only when not and restore is off; with restore on, a recorded disturber runs in it only when the whole run does; a process that is itself a module child does nothing but run nodes |
| ModuleChildren.Host.SpawnChild | engine/py-shim/tiderace_shim/engine.py:640-681 | two pipes, a fork, the two child ends closed in the parent |
| ModuleChildren.Host.CloseChild | engine/py-shim/tiderace_shim/engine.py:683-697 | end the live child by closing its request pipe, wait, close the response pipe |
| ModuleChildren.Host.ReapChild | engine/py-shim/tiderace_shim/engine.py:702-713 | wait for the child, after a signal when asked, then close both pipes |
| ModuleChildren.Host.RunInChild | engine/py-shim/tiderace_shim/engine.py:604-638 | one request to the child for the node's module; if there is none, one is forked after another module's is closed and the stale fixtures of this process are torn down; and the response to each thing the child can do |
| ModuleChildren.Host.RunNode | engine/py-shim/tiderace_shim/engine.py:427-430 | route, then child or own tier; the rules of the lifecycle are kept |
| ModuleChildren.EveryRunKeepsTheRules | engine/py-shim/tiderace_shim/engine.py:604-713 | over every run and whatever children do: at most one is live, a node goes only to a live child of its module with no request unanswered, nothing is signalled, reaped or closed twice, no child is waited for that was neither killed nor hung up nor sees its request pipe closed, each process forked is reaped once and each descriptor opened closed once; with a fork available, restore on and no_fork off no node runs in the parent while a child holds its module |
| ModuleChildren.ReapedExactlyOnce | engine/py-shim/tiderace_shim/protocol.py:173-194 | in a log that keeps the rules, every process forked and no longer live was reaped once |
| ModuleChildren.ClosedExactlyOnce | engine/py-shim/tiderace_shim/engine.py:702-713 | and every descriptor opened and no longer open was closed once |
| ModuleChildren.AnswersFollowRequests | engine/py-shim/tiderace_shim/engine.py:619-638 | answers are read for requests in the order sent, and at most the last request to a process has none: a reply is never taken for another node's |
| ModuleChildren.ResponseSaysWhatHappened | engine/py-shim/tiderace_shim/engine.py:604-638 | after any run, the response to a node given to a child says exactly what was seen of it: whether it was sent, whether a frame came back, and whether the child was killed or reaped at all; and a reply is the one the child wrote |
| ModuleChildren.SameProcessIffAnswered | engine/py-shim/tiderace_shim/engine.py:604-638 | after any run, two nodes of one module that go to a child one after the other go to the same process if and only if the first was answered |
| ModuleChildren.NeverSplitIff | engine/py-shim/tiderace_shim/tiers.py:83-97 | no run ever has a node run here while a child holds its module, if and only if the options are not these: a fork is available, this is no child, restore is on and no_fork is on |
| ModuleChildren.SplittingRunSplits | engine/py-shim/tiderace_shim/tiers.py:83-97 | under those options a run of two nodes splits their module |
| Footprints.MemoIsRightIff | engine/py-shim/tiderace_shim/footprint.py:158-190 | a resolution remembered under one sys.path, for whichever file asked, is the resolution under another if and only if the first existing candidate is the same under both, or neither lies below the run root; relative imports are always right |
| Footprints.RelativeImportResolves | engine/py-shim/tiderace_shim/footprint.py:175-190 | an import of n > 0 dots looks in the directory n - 1 above that of the file: the module there if it exists, else the package, else nothing; and neither counts outside the run root |
| Footprints.BareRelativeImportResolves | engine/py-shim/tiderace_shim/footprint.py:175-190 | one of dots alone means that directory itself, as a module or a package |
| Footprints.BareImportAtRoot | engine/py-shim/tiderace_shim/footprint.py:175-190 | also where that is the root of the file system |
| Footprints.AbsoluteImportResolves | engine/py-shim/tiderace_shim/footprint.py:180-190 | the first directory of sys.path that holds the module or the package decides, module before package, though what it holds may lie outside the run root; with none there is nothing |
| Footprints.KeyIsSharedIff | engine/py-shim/tiderace_shim/footprint.py:166-171 | two imports share what is remembered if and only if they are written the same and, if relative, stand in files of one directory |
| Footprints.Caches.ResolveFile | engine/py-shim/tiderace_shim/footprint.py:158-190 | what is remembered under the key, else the first candidate that exists under sys.path as it is, if it lies below the run root, which is then remembered; whatever sys.path was before |
| Footprints.Caches.DepsFromCache | engine/py-shim/tiderace_shim/footprint.py:227-239 | an entry of an earlier run is used if and only if the file's modification time, size and sys.path are those it was recorded under |
| Footprints.Caches.FileDeps | engine/py-shim/tiderace_shim/footprint.py:193-218 | the list remembered, else the carried one if usable, else what a parse gives with every resolution remembered from other files; each file is parsed or taken from the cache once, and what was parsed is recorded under the stamp and sys.path of the moment |
| Footprints.Caches.Walk | engine/py-shim/tiderace_shim/footprint.py:326-334 | the worklist terminates on cyclic imports with everything imported seen, as the process sees the imports; exactly the files met are asked about |
| Footprints.WalkedIsExact | engine/py-shim/tiderace_shim/footprint.py:326-334 | with an empty queue, what was seen is exactly what one or more imports reach |
| Footprints.Caches.ImportClosure | engine/py-shim/tiderace_shim/footprint.py:314-349 | the closure remembered, else the in-tree files the module imports, directly or not, as the process sees them, and the conftests from the run root down; on any tree, any carried entries and any memos |
| Footprints.Caches.ReportWithImports | engine/py-shim/tiderace_shim/footprint.py:456-473 | the report covers what ran and the closure, line numbers as they were and none for the rest; nothing is added when coverage is off |
| CarriedCaches.ResolvesTheSameIff | engine/py-shim/tiderace_shim/footprint.py:174-190 | an import resolves the same at two moments, of one run or of two, if and only if the first existing candidate is the same or neither counts; under one sys.path it does when no candidate up to the one that was found has appeared or gone |
| CarriedCaches.FirstStaysIff | engine/py-shim/tiderace_shim/footprint.py:181-190 | an import finds the same file in two trees if and only if no candidate up to the one that was found has appeared or gone |
| CarriedCaches.AnswersAreTraced | engine/py-shim/tiderace_shim/footprint.py:193-239 | what a process takes a file to import is, import by import, what it resolved to at the moment the history gives for it: when the file, or another with the same import, was first asked about by this process, or by the last worker of the last run that recorded the file if that list was usable |
| CarriedCaches.WrongIffOvertaken | engine/py-shim/tiderace_shim/footprint.py:193-239 | and is what the file imports now if and only if every import whose first existing candidate is not what it was at its moment is made up for: what it resolved to then another import resolves to now, and what it resolves to now another did then |
| CarriedCaches.RecordIsTrueIff | engine/py-shim/tiderace_shim/footprint.py:207-218 | a list recorded is true of the sys.path it is filed under if and only if the resolutions remembered from other files are made up for |
| CarriedCaches.AnswerIsSeen | engine/py-shim/tiderace_shim/footprint.py:314-349 | a closure answered, remembered or walked, is the closure as the process sees the imports at that moment |
| CarriedCaches.StableAnswer | engine/py-shim/tiderace_shim/footprint.py:193-349 | while sys.path stays as it is, the order of asking is no matter, and with nothing carried every answer is the module's own closure |
| CarriedCaches.UndisturbedIsSame | engine/py-shim/tiderace_shim/footprint.py:193-218 | where no import's first existing candidate has changed since its moment, the answer is the very list a parse would give |
| CarriedCaches.RunAll | engine/py-shim/tiderace_shim/footprint.py:246-308 | over any list of runs, each over its own tree, with any number of workers and sys.path changing between asks: every report is the process's answer after what it was asked before, and what is carried on is every worker's records folded in |
| CarriedCaches.EntriesAreTraced | engine/py-shim/tiderace_shim/footprint.py:246-308 | every entry carried is what the last worker of the last run that recorded the file made of the tree that run found, its stamp under one sys.path the run went through and its resolutions each at a moment of that worker |
| CarriedCaches.ReachIsRightIff | engine/py-shim/tiderace_shim/footprint.py:314-335 | after any runs over any trees, and any asks under any sys.path, what a module is taken to import is what it imports if and only if all that an overtaken file imported at its moments and does not now is imported now another way, and all that it imports now and did not then was imported then another way |
| CarriedCaches.AnswerIsRight | engine/py-shim/tiderace_shim/footprint.py:314-349 | an answer is the module's own closure whenever no file it imports has an import that changed since its moment and is not made up for |
| CarriedCaches.SecondRunRepeats | engine/py-shim/tiderace_shim/footprint.py:227-308 | a second run over the same tree, under the same sys.path throughout, answers the same, right or wrong, and records nothing more where it asks nothing new |
| StaleAnswers.NewFileIsMissed | engine/py-shim/tiderace_shim/footprint.py:227-239 | m.py imports foo: a foo.py added between two runs is missing from the second report, one removed is still in it |
| StaleAnswers.PathChangeIsMissed | engine/py-shim/tiderace_shim/footprint.py:166-218 | a.py and b.py import helper, which lies in lib: whether lib is on sys.path when a.py is walked decides b.py's closure when it no longer, or only then, is; and the list recorded for b.py is filed under the new sys.path, so that the next run, which never changes it, gets it wrong on the same tree |
| CarriedCaches.AgreeingGraphs | engine/py-shim/tiderace_shim/footprint.py:314-335 | import graphs that agree on the files reached from a module reach the same files, whatever they say of others |

## Left out

- MixedScopes.FreshEngineArgumentsAreRight: is for closures in which no wider fixture resolves a parameter to a function-scoped one; the others are covered by `MixedScopes.MixedScopeArgumentsAreRightIff`, which gives its condition for every closure.
- Engines.Engine.SyncWider: the xunit `setup_module` hook that runs between the teardown of stale fixtures and the set-up of missing ones is not part of this model, nor is the module guard's restore after the teardown.
- Isolation.Snapshot: values that compare by identity and are kept as themselves are not modelled; what can be copied is one of the flat containers below.
- Isolation.RestoreInPlace: user objects restored through their attributes, slots, and sliceable containers other than list and bytearray are not modelled.
- Isolation.RestoreShared: globals are immutables or flat dict, list, set and bytearray values; user objects, slots, deques, arrays, nested containers and values equal across types (`1 == True`, `bytes` and `bytearray`) are not modelled.
- Isolation.PurityVerdict: an object that compares by identity and is kept as itself in the snapshot is not modelled.
- Registries.RestoreRegistries: a container that raises when it is compared or edited, the discovery of the containers to watch, and containers that first appear during the module are not modelled; who owns a value is a parameter.
- Engines.EveryRunIsWellNested: teardown raises nothing beyond what `aclose` swallows; xunit hooks, finalizers registered through `request`, parametrized wider fixtures and the module guard's restore are not part of this model.
- Packing.Pack: the cap is computed over the reals, so the rounding of Python floats at the cap is not modelled; weights and durations are whole numbers.
- SelectionGrammar.Tokenize: which characters above ASCII are word characters is a parameter.
- Keywords.TwoPhasesSelectAsOne: lower-casing is any function under which what precedes a `[` lowers the same whatever follows; the names a path gives are a function of the module key.
- Execution.RunsUnderItsOwnName: the text of one variant, before clashes are numbered, is any function of its combination, case and position; the rules of `_id_part` are not modelled, nor is the merging of several parametrize marks into one case.
- Frames.Channel.WriteFrame: the system writes the whole frame at once; short writes and a closed pipe are not modelled.
- ModuleChildren.EveryRunKeepsTheRules: process ids and descriptors are numbered as they are handed out, so their reuse by the system, and a `pipe` or `fork` that itself fails, are not modelled.
- ModuleChildren.Host.RunNode: what `run` does before it routes (the gate and the plan) and after an own tier has run (assembling the response, the clean-room handoff) is not in this method; which variants then run is `KeywordRuns.RunsWhatKeywordSelects`.
- Footprints.Caches.ImportClosure: the files do not change while a process runs, and `sys.path` does not change within one closure, only between closures; symbolic links and paths that are not normalised are not modelled.
- CarriedCaches.ReachIsRightIff: assumes that modification time and size determine the import statements the parser finds; how it finds them (`_imported_names`) is a parameter.
- CarriedCaches.RunAll: a cache file that cannot be read or written, and runs that overlap in time, are not modelled. Its reports and records are those of the workers' own asks: what is asked in a child forked for a test or a module is answered as `CarriedCaches.Answer` says after the parent's asks followed by the child's, but such answers are not among the reports, and the child's records are lost.
- `run_child`, `end_child` polling and the clean room: the one-shot child's life follows the same pattern as the module child's; their waiting is only the choice of whether a child lingers.
- `Selection.load` and `override`, declared and plugin marks, `-m` beyond its meaning as a tree, deadlines, coverage capture, discovery, hooks, configuration and command lines: plumbing, or would only add easy members.
- `sys.modules` and interpreter fingerprints in `Isolation`: heuristics without an exact specification.
- The Rust daemon and CLI, the native package and the other benchmark scripts.
