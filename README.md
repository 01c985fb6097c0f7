# A verified model of the Orm query core

This project models the core of a small PHP object/relational mapper. The
code lives in the static helper class `Orm` and three small classes in
`Orm.classes.php`. A schema is a list of rule lines such as
`Person to Dog as Owns`. Each line says that an instance of the
relationship class `Owns` joins an input class `Person` to an output class
`Dog`. A query names some destination classes. The router searches for a
path of rules through all of them, the compiler turns that path into one
SQL statement, and the hydrator splits each result row back into objects.
They are keyed by column names such as `Owns__0__dog`.

The modules follow the structure of the source:

| module | file | models |
|---|---|---|
| `Wrappers` | wrappers.dfy | `Result`/`Option`, and the exception classes of the source (`OrmInputException`, `OrmException`, `OrmResolutionException`, a plain `Exception`, and PHP fatal errors) |
| `Strings` | strings.dfy | joining, splitting and decimal rendering used throughout |
| `Names` | names.dfy | `validName`, `name`, `validClassName`, `validPropertyName`, `classToDbName`, `propertyToDbName`, `dbToClassName` |
| `Schema` | schema.dfy | rule records, `parseRules`, and the per-class descriptor behind `getProperties` and `getKeys` |
| `Registry` | registry.dfy | `setup` and the stored schemas (`Registry.StoredSchema`, `Registry.Registry`), `getSchema` |
| `Resolve` | resolve.dfy | `resolveRelationship` |
| `Destinations` | destinations.dfy | the destination records of a query |
| `Router` | router.dfy | `isMatch`, `routeRecurse`, `sizeCompare` |
| `Combos` | combos.dfy | `comboRecurse` and `getRoute` |
| `Chains` | chain.dfy | `routeFromChain` |
| `Generate` | generate.dfy | `generateSqlComponents` and `cmpDests` |
| `ChainFormat` | format.dfy | `chainFormatCallback` |
| `Compiler` | compiler.dfy | `sqlFromRoute` and `sqlVar` |
| `Components` | components.dfy | the `OrmSqlComponents` class |
| `Query` | query.dfy | `getSql`: sorting, placeholders and the hash pre-image |
| `Hydrator` | hydrator.dfy | `objectsFromResult` and the `OrmChainRow` lookups |
| `Selection` | selection.dfy | what the SELECT, FROM and WHERE of `sqlFromRoute` hold for output destinations, and where `objectsFromResult` files each selected column |
| `Results` | results.dfy | the `OrmChainResult` class |

Where the source mutates state, the model does too. `setup`, the loops over
rules and destinations, the loop of `sqlFromRoute`, the hydration loop and
the methods of `OrmSqlComponents` and `OrmChainResult` are methods with
loop invariants. Each is proved equal to a specification function. The
properties the source promises are proved about those functions: what its
comments say, what its error paths reject and what its callers rely on.

Several behaviours are reproduced as written, not fixed:

- `setup` ignores the boolean that `validClassName` returns, so a
  malformed class name in a rule is not rejected there.
- `setup` stores the schema object before it checks the rules. A rule that
  throws leaves a partly filled schema registered.
- In `sqlFromRoute` the variable `$alias` is never assigned from the
  destination, so every destination reads as having no alias.
- In `chainFormatCallback`, the class form writes the literal text `[$i]`.
- A linked class that is not registered makes `sqlFromRoute` throw
  `why?`.
- `routeFromChain` appends every rule that matches a step, not just one.
- `cmpDests` returns a boolean that `usort` reads as 0 or 1, so it is not
  an ordering: it is never negative.
- `comboRecurse` given repeated items yields no orderings at all. The
  caller then passes NULL where an array is type-hinted, which is a fatal
  error.
- The `$flat` flag of `getProperties` has no effect on its result.
- In `sqlFromRoute`, the WHERE written for an input given as relationship
  keys uses `$result_of` (line 1037), not `$result_of_sql` (line 940).
  `$result_of` is the previous rule's relationship in class form, set at
  line 908.
- A `$link` flag holding the string `'0'` reads as false.
- `objectsFromResult` applies `dbToClassName` twice to a class name. The
  model proves that a second application changes nothing.

Five places where the code evidently does not do what was meant are listed
under "## Findings". For each, both the code as written and the corrected
behaviour are modelled. The rest of the model uses the corrected one. The
exception is the cache key: nothing else in the model depends on it, so
getSql keeps the hash as written.

## Model

| member | source | states |
|---|---|---|
| Names.DefaultNameIsInvalid | Orm.classes.php:141-142 | the default schema name `-` is not a valid name, so the guard at the top of setup never fires |
| Names.SchemaKey | Orm.classes.php:219-235 | a schema name is accepted exactly when it is NULL or a valid name; NULL becomes the default key and a given name is kept unchanged |
| Names.ClassToDbName | Orm.classes.php:425-442 | succeeds exactly on valid class names; the table name is a valid property name, does not end in `_`, and dbToClassName turns it back into the class name |
| Names.PropertyToDbName | Orm.classes.php:444-453 | succeeds exactly on valid property names and returns the name unchanged |
| Names.DbFromFusion | Orm.classes.php:455-458 | the three string passes of dbToClassName equal one left-to-right scan |
| Names.ClassNameRoundTrip | Orm.classes.php:425-458 | dbToClassName(classToDbName(c)) == c for every valid class name |
| Names.ClassToDbNameInjective | Orm.classes.php:425-442 | two class names with the same table name are the same class |
| Names.SnakeIsValidProperty | Orm.classes.php:304-320 | classToDbName of a valid class name is a valid property name with no trailing underscore, as the comment on the class and property rules demands |
| Names.DbToClassNameIdempotent | Orm.classes.php:455-458 | dbToClassName applied to its own output changes nothing |
| Names.DbToClassNameNoUnderscore | Orm.classes.php:455-458 | a name from dbToClassName contains no underscore, so it is one piece of a `__`-joined column name |
| Strings.Explode | Orm.classes.php:1253 | explode on `__` always gives at least one piece |
| Strings.ExplodeJoin | Orm.classes.php:1253 | cutting a `__`-joined name whose pieces hold no `__` gives those pieces back |
| Strings.ExplodeSeparable | Orm.classes.php:1253 | the pieces explode gives can always be joined and cut again |
| Strings.SplitJoin | Orm.classes.php:1095 | splitting an implode on a one-character separator that no part holds gives the parts back |
| Strings.Dedup | Orm.classes.php:192 | array_unique keeps every value and only those, with no value twice and never more entries |
| Strings.StrCmp | Orm.classes.php:1126 | the sign of strcmp is zero exactly on equal strings |
| Strings.StrCmpAntisymmetric | Orm.classes.php:1126 | strcmp(a, b) is minus strcmp(b, a) |
| Strings.StrCmpTransitive | Orm.classes.php:1126 | strcmp's order is transitive |
| Strings.NatToStringInjective | Orm.classes.php:938-945 | different counters give different decimal texts |
| Strings.DecValueOfNatToString | Orm.classes.php:938-945 | the decimal text of a counter reads back as that counter |
| Schema.SplitSpaces | Orm.classes.php:529 | preg_split on `\s+` always gives at least one piece |
| Schema.Lines | Orm.classes.php:517 | preg_split on an optional carriage return and a line feed always gives at least one line |
| Schema.ParseLine | Orm.classes.php:518-533 | a line that matches the rule pattern yields input, output and relationship that are each a non-empty run of word characters |
| Schema.ParseAll | Orm.classes.php:513-535 | parseRules yields no more rules than lines, and every rule it yields is the parse of one of the lines |
| Schema.SplitSpacesJoin | Orm.classes.php:529 | options joined by one space split back into the same options |
| Schema.ParseFormattedOptions | Orm.classes.php:526-529 | the options of a written rule line parse back unchanged |
| Schema.ParseFormattedLine | Orm.classes.php:518-533 | a rule written back as `I to O as A options` parses back to the same rule |
| Schema.LinesOfJoin | Orm.classes.php:517 | lines with no line feed and no trailing carriage return, joined by line feeds, split back into the same lines |
| Schema.ParseFormattedRules | Orm.classes.php:513-535 | a schema made of written rule lines parses back to exactly those rules, in order |
| Schema.ParseAllOf | Orm.classes.php:516-534 | when every line parses to a rule, parseRules keeps them all, in order |
| Schema.ParseAllFormatted | Orm.classes.php:516-534 | written rule lines parse back to their rules, in order |
| Schema.AbstractPrefix | Orm.classes.php:418-421 | the ancestors merged into a class are the abstract ones directly above it, up to the first instantiable one |
| Schema.LevelErrorsNone | Orm.classes.php:408-415 | a level passes the property checks exactly when no property is `id` and the class and property names are valid |
| Schema.WalkPropertiesSpec | Orm.classes.php:398-421 | the walk succeeds exactly when every level is clean, and then yields the declared properties of each level in order |
| Schema.GetProperties | Orm.classes.php:387-423 | fails for classes outside the Orm hierarchy; otherwise succeeds exactly when every visited level is clean, and then every property is a valid property name other than `id` |
| Schema.CleanDeclared | Orm.classes.php:408-417 | properties gathered from clean levels are valid property names other than `id` |
| Schema.FirstMissing | Orm.classes.php:477-479 | no key is missing exactly when every key is a property; a reported key is a key that is not a property |
| Schema.GetKeys | Orm.classes.php:466-483 | classes outside the hierarchy fail; no `_keys` constant gives `[id]`; otherwise the de-duplicated comma-separated keys, each a property, and success exactly when every listed key is a property; the keys are never empty and hold no duplicates |
| Registry.RuleStepExact | Orm.classes.php:158-188 | one pass of the setup loop succeeds exactly when the rule's classes are acceptable, its relationship is not `Inherits` and not already stored; it then appends the declared ends, the relationship and, if declared, the relationship class |
| Registry.RulesLoopStops | Orm.classes.php:158-189 | once the setup loop has thrown, the later rules change nothing (the partly filled schema stays stored) |
| Registry.RulesLoopSucceeds | Orm.classes.php:158-189 | the setup loop fails exactly when some rule is unacceptable, meets a stored relationship or repeats an earlier one; otherwise the relationships are appended in rule order |
| Registry.RulesLoopState | Orm.classes.php:158-189 | a setup loop that gets through every rule appends the declared ends, all relationships and the declared relationship classes |
| Registry.SetupExact | Orm.classes.php:139-196 | setup succeeds exactly on acceptable rule lists, and then stores the parsed rules, the connection name, the de-duplicated declared classes, every relationship and the declared relationship classes |
| Registry.SetupRejectsInherits | Orm.classes.php:165-166 | a rule whose relationship is `Inherits` makes setup throw |
| Registry.SetupRejectsRepeatedRelationship | Orm.classes.php:182-183 | a relationship named by two rules makes setup throw |
| Registry.DeclaredRelationshipsAreRelationships | Orm.classes.php:185-189 | every registered relationship class is a registered relationship |
| Registry.DeclaredEndsAreEntities | Orm.classes.php:168-180 | every registered class is a declared subclass of OrmClass |
| Registry.SetupInvariants | Orm.classes.php:139-196 | after a successful setup the classes and relationships hold no duplicates, every relationship class is a relationship and every class is an OrmClass |
| Registry.StoredSchema.constructor | Orm.classes.php:150-157 | the stored schema starts with the parsed rules, the connection name and empty lists |
| Registry.StoredSchema.ApplyRule | Orm.classes.php:158-188 | one turn of the setup loop leaves the stored object in the state RuleStep gives and throws exactly when RuleStep does, without touching the rules |
| Registry.StoredSchema.ApplyRules | Orm.classes.php:158-194 | the setup loop and the array_unique after it, updating the stored object in place: its new state is the loop's state, and the result is an error exactly when the loop threw, with that error |
| Registry.Registry.constructor | Orm.classes.php:114 | no schema is registered at first |
| Registry.Registry.Setup | Orm.classes.php:139-196 | an invalid schema name or connection leaves the registry unchanged and fails; otherwise a fresh schema object is stored under the key (replacing any earlier one, and nothing else changes), holding what the rule loop leaves, and the call fails exactly when the loop threw |
| Registry.Registry.GetSchema | Orm.classes.php:237-244 | succeeds exactly when the name is valid and a schema is stored under its key, and returns that schema |
| Registry.Registry.IsRegisteredClass | Orm.classes.php:199-204 | fails exactly on invalid names; otherwise true exactly when a schema is stored under the name and lists the class |
| Registry.Registry.IsRegisteredIRelationship | Orm.classes.php:206-211 | fails exactly on invalid names; otherwise true exactly when a stored schema lists the relationship class |
| Registry.Registry.IsRegisteredRelationship | Orm.classes.php:213-217 | fails exactly on invalid names; otherwise true exactly when a stored schema lists the relationship |
| Resolve.ResolveAsWritten | Orm.classes.php:279-301 | resolveRelationship as written always throws the resolution exception: its loop runs over the schema object's six properties, and its matches go to a misspelled array |
| Resolve.ResolveAsWrittenNeverResolves | Orm.classes.php:279-301 | as written, no pair of named classes is ever resolved: it reports "no matches found" whatever the rules |
| Resolve.ResolveDisagrees | Orm.classes.php:279-301 | for the schema `Person to Dog as Owns` the code as written fails while the corrected resolution returns that rule |
| Resolve.ConnectingSpec | Orm.classes.php:284-290 | the matches are rules of the schema that connect the two classes in either direction, and there are none exactly when no rule does |
| Resolve.ResolveSpec | Orm.classes.php:279-301 | the corrected resolution succeeds exactly when one rule connects the classes, with that rule; it fails with "no matches found" exactly when none does |
| Resolve.ResolveLoop | Orm.classes.php:284-301 | the loop over the rules computes Resolve |
| Chains.ParseStep | Orm.classes.php:808 | a match of `^([^ ]+) -> \(([^\)]+)\) -> ([^ ]+)` consumes a non-empty part of the chain and leaves the right-hand class |
| Chains.ParseStepShape | Orm.classes.php:808-809 | a matched step has non-empty groups without the excluded characters, consumes exactly `A -> (R) -> `, and the rest begins with the right-hand class |
| Chains.ParseStepAt | Orm.classes.php:808 | text made of the three groups around the arrows matches with exactly those groups |
| Chains.StepsLinked | Orm.classes.php:808-821 | each step the loop finds starts at the class where the step before it ended |
| Chains.StepsOfRender | Orm.classes.php:808-821 | reading a written chain `A -> (R1) -> B -> (R2) -> C …` back gives exactly its hops |
| Chains.Matching | Orm.classes.php:811-815 | the rules appended for a step are rules of the schema that join its classes, in either direction, with its relationship; none is appended exactly when no rule does |
| Chains.MatchingUnique | Orm.classes.php:182-183 | with relationship names unique, as setup demands, at most one rule matches a step |
| Chains.ChainStepsOfSteps | Orm.classes.php:808-821 | the loop over the chain equals matching the steps of the chain one after another |
| Chains.StepsRouteOk | Orm.classes.php:817-818 | the steps yield a route exactly when every step matches at least one rule |
| Chains.StepsRouteErr | Orm.classes.php:817-818 | a failure names the first step without a matching rule |
| Chains.StepsRouteRules | Orm.classes.php:811-815 | every rule of a route joins the classes of some step |
| Chains.StepsRouteOnePerStep | Orm.classes.php:808-821 | with unique relationship names the route has one rule per step, the k-th joining the classes of the k-th step |
| Chains.ChainCheckSpec | Orm.classes.php:793-805 | the destination check passes exactly when every destination is a relationship class named in parentheses or a class named as a word of the chain |
| Chains.ChainRouteSpec | Orm.classes.php:791-824 | routeFromChain succeeds exactly when every destination is accounted for and every step matches a rule; every rule of the route joins some step's classes; with unique relationship names there is one rule per step, in step order |
| Chains.RouteFromChain | Orm.classes.php:791-824 | the check loop and the while loop compute ChainRoute |
| Chains.MatchStep | Orm.classes.php:810-815 | the inner loop computes Matching |
| Combos.PermsCount | Orm.classes.php:655-669 | for distinct items, the completions of a partial ordering number (n - used)! |
| Combos.PermsSound | Orm.classes.php:655-669 | every combination appended extends `used`, has one entry per item, holds only items and no item twice |
| Combos.CombosAreOrderings | Orm.classes.php:655-669 | for distinct items comboRecurse yields n! combinations, each an ordering of the items |
| Combos.CombosOfRepeatedItems | Orm.classes.php:655-669 | with a repeated item the `in_array` guard stops every branch before it is full, so comboRecurse yields nothing at all |
| Combos.PermsComplete | Orm.classes.php:667-668 | every ordering that extends `used` is among the combinations appended |
| Combos.OrderingsAreCombos | Orm.classes.php:655-669 | every ordering of the items is among the combinations |
| Combos.ComboRecurse | Orm.classes.php:655-669 | the recursion appends to `combos` exactly the completions of `used`, in the order Perms lists them |
| Combos.RoutesOfAreRoutes | Orm.classes.php:678-685 | every route kept is the route found for one of the combinations |
| Combos.RoutesOfComplete | Orm.classes.php:678-685 | the route found for any combination is kept |
| Combos.GetRoute | Orm.classes.php:675-690 | getRoute returns NULL when no combination has a route and otherwise the best of the routes found |
| Combos.GetRouteBest | Orm.classes.php:675-690 | no route is found exactly when no combination has one; otherwise the result is the route of some combination and no route of any combination is preferred to it |
| Router.IsMatchAsWritten | Orm.classes.php:537-564 | isMatch as written throws exactly for array specs (its recursive call passes no spec); for every other spec it answers as the corrected match |
| Router.NameAsAlternatives | Orm.classes.php:543-549 | the array alternative {input: A} or {output: A} matches exactly the rules the class name A matches, while the written code throws on it |
| Router.FoundSound | Orm.classes.php:585-627 | every route recorded from a route in progress extends it, stays linked and within the rules, ends at the output and meets every waypoint |
| Router.CandidatesAreRoutes | Orm.classes.php:570-627 | every route routeRecurse records starts at the input, ends at the first rule matching the output, never repeats a rule, links each rule to the one before and meets every waypoint |
| Router.FoundComplete | Orm.classes.php:614-624 | conversely the search records every route that extends a route in progress |
| Router.CandidatesExact | Orm.classes.php:570-627 | a sequence of rules is recorded by the search exactly when it is a route |
| Router.SizeCompareOrder | Orm.classes.php:630-653 | sizeCompare is non-negative exactly when the first route is no worse (shorter, or as long and touching no more distinct classes), and is antisymmetric |
| Router.Best | Orm.classes.php:582-583 | the route usort and array_pop leave is one of the recorded routes and no recorded route is preferred to it |
| Router.WaypointsMatched | Orm.classes.php:592-607 | the waypoint loop succeeds exactly when every waypoint is matched by some rule of the path |
| Router.Explore | Orm.classes.php:614-627 | the recursive branch appends to `paths` exactly the routes Found records from the path |
| Router.RouteRecurse | Orm.classes.php:570-584 | the entry point returns Route: NULL when no route was recorded, otherwise the best recorded one |
| Router.Collect | Orm.classes.php:572-577 | the loop over the starting rules records exactly the candidate paths, in the order the search finds them |
| Router.Route | Orm.classes.php:570-627 | the result is a route and no route is preferred to it; NULL means there is no route at all |
| Generate.SortDestsFails | Orm.classes.php:737-739 | the destination loop fails exactly when some destination names no class, with the "class" message |
| Generate.SortDestsSnoc | Orm.classes.php:737-747 | each destination adds itself to the class destinations unless it is a registered relationship, and adds its waypoints |
| Generate.SortDestsClasses | Orm.classes.php:737-747 | the class destinations are exactly the destinations that are not registered relationships |
| Generate.SortDestsHead | Orm.classes.php:737-747 | a first destination that is not a relationship is the first class destination, so the anchor |
| Generate.SortDestsWaypoints | Orm.classes.php:741-745 | every waypoint stipulates only an alias: a destination's alias, or the name of a registered relationship |
| Generate.TailClasses | Orm.classes.php:760-771 | the list handed to comboRecurse is the classes of the class destinations after the first, in order |
| Generate.Anchored | Orm.classes.php:772-778 | every combination gets the first class in front, and every class is respecified (a relationship class becomes a relationship spec) |
| Generate.CombosFor | Orm.classes.php:771-778 | every combination getRoute receives has at least two entries |
| Generate.PlanBest | Orm.classes.php:767-781 | for distinct classes the search fails with "Could not calculate a valid route" exactly when no ordering has a route; otherwise it returns the route of some ordering, and no route of any ordering is preferred to it |
| Generate.CombosAreAnchoredOrderings | Orm.classes.php:767-778 | the combinations are exactly the orderings of the other classes, each anchored at the first class |
| Generate.RepeatedClassIsFatal | Orm.classes.php:772-776 | a class repeated among the other destinations leaves `$combos` NULL, which getRoute's array type hint refuses with a fatal error |
| Generate.SingleClassRoute | Orm.classes.php:760-765 | one class destination without a chain is compiled from the single rule from that class to itself over the anchor alias `0` |
| Generate.GeneratedErrors | Orm.classes.php:737-753 | a destination without a class fails with the "class" message; when every destination is a relationship, with "Must supply one or more destinations" |
| Generate.SortDestinations | Orm.classes.php:735-747 | the destination loop computes SortDests |
| Generate.ChooseRoute | Orm.classes.php:755-784 | the choice of the route computes Plan: the chain, the one-class rule or the search |
| Generate.SearchRoute | Orm.classes.php:767-781 | the search branch computes ComboPlan |
| Generate.GenerateSqlComponents | Orm.classes.php:729-789 | generateSqlComponents computes Generated: sorting, route choice, then sqlFromRoute |
| Compiler.Nodes | Orm.classes.php:836-849 | `$nodes` holds exactly the classes some rule of the route leads to that are neither the first class nor the input of any rule |
| Compiler.NonKeyCopies | Orm.classes.php:862-865 | a destination is listed among the non-key inputs (once per such property) exactly when one of its input properties is not a key |
| Compiler.ClassifySpec | Orm.classes.php:851-870 | `$used` lists the class of every class destination in order; outputs and non-key inputs are among them; there are no outputs exactly when no destination asks for one |
| Compiler.ClassifyDests | Orm.classes.php:851-867 | the classifying loop computes Classify |
| Compiler.StopsThere | Orm.classes.php:851-867 | a failure while classifying a prefix of the destinations is the failure of the whole loop |
| Compiler.DbName | Orm.classes.php:425-442 | classToDbName of a variable that may be NULL: fails on NULL and on invalid names, and otherwise gives the table name |
| Compiler.OrientShared | Orm.classes.php:896-905 | a rule sharing an end with the previous rule stands on that shared end and links to its other end; the link is stored here exactly when the rule runs forward from the current class |
| Compiler.OrientClosing | Orm.classes.php:885-894 | the closing step stands on the end of the last rule the route did not stand on |
| Compiler.ClassInputs | Orm.classes.php:1022-1041 | the inputs of a class destination fail exactly when some property is not a member or not a valid property name; otherwise one WHERE condition per input |
| Compiler.RelationshipInputs | Orm.classes.php:1043-1056 | the inputs of a relationship destination fail exactly when some property is not a member or not a valid property name; otherwise one WHERE condition per input |
| Compiler.StepAliases | Orm.classes.php:876-983 | one pass appends one step whose alias extends the chain; its result is the previous rule's relationship, its counter is that relationship's next counter, which the counters then remember, and the step stands on the oriented class |
| Compiler.StepLinkedAlias | Orm.classes.php:948-958 | a step over a relationship links to a registered class under the alias `rel__i__table`, `i` being that relationship's next counter |
| Compiler.JoinTargetsNextStep | Orm.classes.php:1067-1081 | the alias a step joins to is the alias the next step stands on when that step stands on the linked class |
| Compiler.StepRejectsUnregisteredLink | Orm.classes.php:959-963 | a relationship leading to a class that is not registered stops the compilation with `why?` |
| Compiler.CompileNeedsOutputs | Orm.classes.php:869-870 | without a class destination asking for an output nothing is compiled: "No Class outputs given" |
| Compiler.SqlFromRoute | Orm.classes.php:826-1106 | sqlFromRoute computes CompileSql: classification, the loop over the route and the closing step, then SELECT, de-duplicated FROM and WHERE. What those lists hold for the output destinations, and how their columns read back, is stated by the Selection rows below |
| Compiler.RunCounted | Orm.classes.php:876-1089 | the loop keeps the counting scheme: every step's alias is built from its relationship's counter, and there is one step per rule |
| Compiler.CompileCounted | Orm.classes.php:871-1089 | a compiled route keeps the counting scheme and has one step per rule, plus the closing step when there are several class destinations |
| Compiler.CompileNamed | Orm.classes.php:876-1089 | with non-empty rule and class names every name the loop carries, and every step's relationship and class, is non-empty |
| Compiler.StepWord | Orm.classes.php:945-952 | the alias of a step is one word that chainFormat shows as its relationship, index and class |
| Compiler.StepDecodable | Orm.classes.php:945-947 | the relationship, counter and table of a step can be read back from its alias |
| Compiler.RegisteredAliasesDistinct | Orm.classes.php:938-947 | no two steps on registered classes get the same alias: the counters and the name rules keep them apart |
| Compiler.ChainShown | Orm.classes.php:1093-1095 | the chain of a compiled route is each step, shown as chainFormat shows it, joined by arrows |
| Selection.InheritWalkEmits | Orm.classes.php:991-1012 | the walk up an output class's hierarchy emits every instantiable level and skips the abstract ones. Each selected property `p` (with `id` in front when the keys are just `id`) appears as `a.p AS a__p`. For an ancestor, `a` is `<step alias>__inherits__<table>`, `table a` is in FROM, and each key gives the WHERE join `b.inherits__key__<key> = a.<key>`, `b` being the alias of the nearest instantiable level below |
| Selection.InheritWalkColumns | Orm.classes.php:991-1012 | the hierarchy walk only adds SELECT entries `… AS <name>`, where the name is that of a property of the class under the step's alias or of an ancestor under its `__inherits__` alias |
| Selection.CompileSelectsOutputs | Orm.classes.php:984-1012 | in a compiled route, every output destination of the class a step stands on has that class's whole hierarchy emitted under the step's alias, as InheritWalkEmits states, in the final SELECT, FROM and WHERE lists |
| Selection.CompileColumns | Orm.classes.php:984-1020 | every entry of a compiled SELECT list is `… AS <name>` for a column of one step: a property of its class, of an ancestor, or of the relationship it was reached over (`<result>__<n>__<prop>`) |
| Selection.ColumnDecodes | Orm.classes.php:1254-1298 | each column name sqlFromRoute builds for a step is cut by objectsFromResult into that step's bag: the class bag `Rel__n__Class` for a class or ancestor property (an ancestor's `id` as `__Parent__id`), the relationship bag `Rel__n` for a relationship property |
| Selection.CompiledColumnsDecode | Orm.classes.php:1244-1298 | every entry of a compiled SELECT list names a column of one of the steps that objectsFromResult files into that step's class bag or relationship bag. This holds for steps on registered classes and for every relationship column |
| ChainFormat.MatchWord | Orm.classes.php:1095 | a match of `([^ ]+)__([^ ]+)__([^ ]+)` in one word has three non-empty groups that, joined by `__`, make up the word |
| ChainFormat.MatchWordExists | Orm.classes.php:1095 | a word holds a match exactly when it has two `__` with non-empty text before, between and after them |
| ChainFormat.MatchWordAlias | Orm.classes.php:1095 | an alias `rel__n__table` with name-rule parts is read back into exactly those groups |
| ChainFormat.MatchWordPlain | Orm.classes.php:1095 | a word without `__` holds no match and is left unchanged |
| ChainFormat.FormatJoined | Orm.classes.php:1095 | formatting the chain `x1 -> x2 -> …` formats each alias on its own |
| ChainFormat.FormatRelationshipAlias | Orm.classes.php:1108-1122 | the alias of a step reached over relationship Rel is shown as `(Rel) -> Class` for counter 0 and as `(Rel[$i]) -> Class` after, with the literal text `[$i]` |
| ChainFormat.FormatAnchorAlias | Orm.classes.php:1110-1111 | the alias of the anchor step (relationship `0`) is shown as its class name |
| ChainFormat.FormatTable | Orm.classes.php:1095 | the bare table name of an unregistered class is left as it is |
| ChainFormat.AliasInjective | Orm.classes.php:945-958 | two aliases built from name-rule parts are equal only when their relationship, counter and table are |
| ChainFormat.NatToStringZero | Orm.classes.php:1115-1118 | the counter text is `0` exactly for counter 0 |
| Components.Defaults | Orm.classes.php:1810-1825 | a fresh clause array holds the ten fixed clause keys, in order |
| Components.Lookup | Orm.classes.php:1827-1837 | a key is found exactly when it is set, with the value stored under it |
| Components.Update | Orm.classes.php:1843 | assigning to a key that is set keeps the keys and their order |
| Components.SqlComponents.constructor | Orm.classes.php:1857-1864 | a new object holds the chain and the fixed clauses merged with the given items, the fixed keys first and no key twice |
| Components.SqlComponents.Get | Orm.classes.php:1827-1833 | get fails exactly on a key that is not set, and otherwise returns the key itself |
| Components.SqlComponents.Value | Orm.classes.php:1827-1833 | the corrected get fails exactly on a key that is not set, and otherwise returns the value stored under it |
| Components.SqlComponents.Set | Orm.classes.php:1835-1844 | set fails and changes nothing on a key that is not set; otherwise only that key's value changes, the key order and the chain stay |
| Components.DefaultsDistinct | Orm.classes.php:1810-1825 | the fixed clause keys are distinct |
| Components.UpdateLookup | Orm.classes.php:1835-1844 | after setting a key, that key reads the new value and every other key reads what it read before |
| Components.MergeKeeps | Orm.classes.php:1863 | array_merge keeps the keys of the first array in front, in order, and repeats no key |
| Components.ClausesCommands | Orm.classes.php:1847-1855 | with only SELECT, FROM and WHERE filled, __toString writes exactly those, in that order, leaving out empty ones |
| Components.FilledStatement | Orm.classes.php:1847-1855 | the statement of a compiled query is `SELECT …`, then `FROM …`, then `WHERE …` when there is a condition, each clause once |
| Components.Build | Orm.classes.php:1097-1104 | the end of sqlFromRoute makes a new object holding the formatted chain and the clause array with SELECT, FROM and, when there is a condition, WHERE set |
| Query.CmpDests | Orm.classes.php:1124-1138 | destinations of different classes compare as strcmp of their classes; of the same class, 1 when both outputs are set and true and 0 otherwise (the ksort branch never decides) |
| Query.CmpDestsNotAntisymmetric | Orm.classes.php:1133-1134 | a destination with a true output compares greater than itself, so cmpDests is no order |
| Query.Insert | Orm.classes.php:1197 | inserting into a sorted run adds exactly the element |
| Query.SortTail | Orm.classes.php:1197 | the sort is a permutation of the tail |
| Query.InsertSorted | Orm.classes.php:1197 | insertion keeps a run sorted by class |
| Query.SortTailSorted | Orm.classes.php:1197 | the sorted tail is in class order |
| Query.OrderedSpec | Orm.classes.php:1192-1199 | getSql keeps the first destination first and the rest are the other destinations, each once, in class order; no destination at all leaves a single NULL head |
| Query.VarName | Orm.classes.php:1208 | a placeholder `$i<i>_<table>[_<alias>]_<key>` can be built exactly when the class (and the alias) are valid class names and the key a valid property name |
| Query.Rewrite | Orm.classes.php:1204-1215 | the loop gives one rewritten destination per destination |
| Query.RewriteInputsSpec | Orm.classes.php:1206-1211 | each input gets the placeholder named after its destination and key, its value becomes `{name}`, the quoted escaped text is collected, and the loop fails exactly when some key cannot be named |
| Query.RewriteOk | Orm.classes.php:1204-1215 | the loop succeeds exactly when every destination's inputs can be named |
| Query.RewriteDests | Orm.classes.php:1204-1215 | the loop keeps every destination in its place, with only its input values replaced |
| Query.VarNameIndex | Orm.classes.php:1208 | the number after `$i` in a placeholder is the destination's index |
| Query.VarNameKey | Orm.classes.php:1208 | within one destination different keys give different placeholders |
| Query.RewriteNamesDistinct | Orm.classes.php:1204-1218 | the placeholder names of one request are pairwise distinct, so they can all be parameters of one generated function |
| Query.OrderedShape | Orm.classes.php:1192-1199 | cmpDests looks only at classes and outputs, so requests differing only in input values are ordered alike |
| Query.RewriteShape | Orm.classes.php:1204-1215 | requests differing only in input values are rewritten to the same destinations, the same placeholder names and the same output tags |
| Query.SameShapeSameSql | Orm.classes.php:1190-1227 | requests differing only in their input values get the same hash, the same function arguments and the same SQL components; only the values passed to the cached function differ |
| Query.RewriteStops | Orm.classes.php:1204-1215 | the first destination whose inputs cannot be named stops the loop with its error |
| Query.RewriteInputsLoop | Orm.classes.php:1206-1211 | the inner loop computes RewriteInputs |
| Query.RewriteDestLoop | Orm.classes.php:1205-1215 | one turn of the outer loop computes RewriteDest |
| Query.PrepareQuery | Orm.classes.php:1201-1218 | the placeholder part of getSql computes Prepare: rewritten destinations, arguments, values and `h` + sha1 of the serialized chain, output tags and arguments |
| Query.GetSql | Orm.classes.php:1190-1227 | getSql computes GetSqlOf: order, rewrite, hash, and the SQL components of the rewritten destinations |
| Query.PreimageMissesBareDestination | Orm.classes.php:1204-1218 | the requests `[A (output), B]` and `[A (output), C]`, where B and C have neither inputs nor an output, are both prepared and share the hash pre-image, although the destinations passed on to the SQL generation differ |
| Query.CorrectedKeyShape | Orm.classes.php:1204-1218 | the corrected key, a length-prefixed list of the chain and of each destination's class, alias, output flag and input keys, is the same for two requests exactly when their chains are equal and they differ only in input values |
| Query.CorrectedKeySameSql | Orm.classes.php:1190-1227 | two requests whose ordered destinations have the same corrected key have the same chain; getSql succeeds for both or for neither, and when it succeeds they get the same function arguments and the same SQL components |
| Hydrator.ClassColumnDecodes | Orm.classes.php:1266-1276 | the column `<rel>__<n>__<table>__<prop>` sqlFromRoute selects for a class property is cut into the class bag `Rel__n__Class` under the property |
| Hydrator.RshipColumnDecodes | Orm.classes.php:1254-1264 | the column `<rel>__<n>__<prop>` selected for a relationship property is cut into the relationship bag `Rel__n` under the property |
| Hydrator.InheritsColumnDecodes | Orm.classes.php:1278-1298 | the column of a parent class's property, selected through the ancestor join, is cut into the child's bag; `id` is renamed `__Parent__id` |
| Hydrator.MarkedColumnDecodes | Orm.classes.php:1278-1298 | the same for any marker piece that reads back as `Inherits` |
| Hydrator.DecodeRejects | Orm.classes.php:1253-1301 | a column name stops the hydration exactly when it is not cut into 3, 4 or 6 parts, or its 6 parts lack the `Inherits` marker |
| Hydrator.BagKeyParts | Orm.classes.php:1262-1318 | the bag key of a decoded column cuts back into the parts the object loops read: alias and counter, and for a class bag the class |
| Hydrator.BagOf | Orm.classes.php:1262-1263 | a bag is found exactly when its key is set |
| Hydrator.DepositKeys | Orm.classes.php:1262-1265 | a value for a new bag appends the bag's key; for an existing one the keys keep their order |
| Hydrator.DepositBag | Orm.classes.php:1262-1265 | storing a value sets one property of one bag and changes nothing else |
| Hydrator.FillOk | Orm.classes.php:1252-1303 | the column loop of a row goes through exactly when every column name decodes |
| Hydrator.FillDistinct | Orm.classes.php:1249-1303 | the bag keys of each kind hold no duplicates, as PHP array keys |
| Hydrator.FillLastWins | Orm.classes.php:1252-1303 | a column's value is held in its bag under its property unless a later column writes the same cell |
| Hydrator.Find | Orm.classes.php:1314-1325 | an object is found exactly when its key is set |
| Hydrator.PutObjKeys | Orm.classes.php:1314-1325 | storing under a new key appends it; under an existing one keeps the order |
| Hydrator.FindPutObj | Orm.classes.php:1314-1325 | storing sets one key and changes nothing else |
| Hydrator.ClassObjectsOk | Orm.classes.php:1308-1315 | the class objects are built exactly when every class bag names a registered class; otherwise the first bag that does not is reported as not registered for the schema |
| Hydrator.ClassObjectsSlots | Orm.classes.php:1308-1315 | every class bag leaves an object in the slot `Alias__i` |
| Hydrator.RshipObjectsOk | Orm.classes.php:1317-1326 | the relationship objects are built exactly when every relationship bag names a registered relationship class; otherwise the first bag that does not is reported |
| Hydrator.RshipObjectsExact | Orm.classes.php:1317-1326 | each relationship bag leaves, under its own key, an object of the relationship holding the bag's values |
| Hydrator.RshipByAlias | Orm.classes.php:1903-1910 | `_rshipByAlias` succeeds exactly when the key `alias__i` is set among the relationship objects |
| Hydrator.ClassByAlias | Orm.classes.php:1912-1919 | `_classByAlias` succeeds exactly when the key `alias__i` is set among the class objects |
| Hydrator.Anchored | Orm.classes.php:1942-1946 | `_anchored` succeeds exactly when the key `0__0` is set among the class objects |
| Hydrator.IsSetAsWritten | Orm.classes.php:1936-1940 | `__isset` as written is true exactly when the bare alias is a key of the relationship objects |
| Hydrator.IsSet | Orm.classes.php:1921-1940 | the corrected `__isset` is true exactly when `__get` finds the alias |
| Hydrator.IsSetDisagrees | Orm.classes.php:1921-1940 | on a row holding relationship `Owns__0`, `__get` finds `Owns` while `__isset` as written says it is not set |
| Hydrator.OfClassSpec | Orm.classes.php:1953-1966 | the objects collected for a class are all of that class, never more than there are objects, and none exactly when no object has the class |
| Hydrator.ByClassOfSpec | Orm.classes.php:1949-1968 | `_byClass` fails exactly when the class is met twice or more, is NULL exactly when no object has the class, and otherwise returns an object of the class |
| Hydrator.HydrateStep | Orm.classes.php:1246-1329 | one more row hydrates when the rows before it and the row itself do, appending its chain row |
| Hydrator.HydrateOk | Orm.classes.php:1246-1329 | a result hydrates exactly when every row does |
| Hydrator.HydrateRows | Orm.classes.php:1246-1329 | a hydrated result has one chain row per result row, in order, each the hydration of its row |
| Hydrator.FillBags | Orm.classes.php:1252-1303 | the column loop computes Fill |
| Hydrator.BuildClassObjects | Orm.classes.php:1308-1316 | the class bag loop computes ClassObjects |
| Hydrator.BuildRshipObjects | Orm.classes.php:1317-1327 | the relationship bag loop computes RshipObjects |
| Hydrator.BuildRow | Orm.classes.php:1249-1328 | the body of the row loop computes HydrateRow |
| Results.ScanClass | Orm.classes.php:1953-1966 | one of the two loops of `_byClass`: with two or more objects of the class seen in all it fails with the uniqueness message; otherwise the item holds the one object seen, if any |
| Results.RowByClass | Orm.classes.php:1949-1968 | the two loops of `_byClass` compute ByClassOf |
| Results.RshipsOfSpec | Orm.classes.php:1999-2006 | rshipByAlias succeeds exactly when every row has the alias, and then gives each row's object in row order; a failure names the missing key `alias__0` |
| Results.ClassesOfSpec | Orm.classes.php:2009-2016 | classByAlias succeeds exactly when every row has the alias among its class objects, and then gives each row's object in row order; a failure names the missing key |
| Results.ByClassAllSpec | Orm.classes.php:2059-2066 | byClass succeeds exactly when the class is unique in every row, and then gives one object (or NULL) per row, in order; a failure is the uniqueness error |
| Results.ChainResult.constructor | Orm.classes.php:1973-1980 | a new result holds the chain, no rows, is not final and points at the start |
| Results.ChainResult.Add | Orm.classes.php:1982-1989 | add appends the row; once finalized it fails with "Cannot add to a finalized OrmChainResult" and leaves the rows unchanged |
| Results.ChainResult.Finalize | Orm.classes.php:1992-1996 | finalize makes the result final and changes nothing else |
| Results.ChainResult.RshipByAlias | Orm.classes.php:1999-2006 | the loop computes RshipsOf over the rows |
| Results.ChainResult.ClassByAlias | Orm.classes.php:2009-2016 | the loop computes ClassesOf over the rows |
| Results.ChainResult.Anchored | Orm.classes.php:2053-2056 | anchored is classByAlias of the anchor alias `0` |
| Results.ChainResult.ByClass | Orm.classes.php:2059-2066 | the loop computes ByClassAll over the rows |
| Results.ChainResult.Get | Orm.classes.php:2042-2050 | `anchored` gives the anchored objects, a name starting with `class` gives byClass of the rest of the name, anything else gives NULL |
| Results.ChainResult.IsSet | Orm.classes.php:2024-2027 | `__isset` asks the row under the cursor, using the corrected Hydrator.IsSet; past the end it is a fatal error. PHP calls the as-written `OrmChainRow::__isset` (see the `__isset` row under "## Findings") |
| Results.ChainResult.Rewind | Orm.classes.php:2069-2072 | rewind moves the cursor to the first row and changes nothing else |
| Results.ChainResult.Current | Orm.classes.php:2074-2077 | current gives the row under the cursor, or false past the end |
| Results.ChainResult.Key | Orm.classes.php:2079-2082 | key gives the index under the cursor, or NULL past the end |
| Results.ChainResult.Next | Orm.classes.php:2084-2087 | next moves the cursor on, stays past the end once there, and gives the new current row |
| Results.ChainResult.Valid | Orm.classes.php:2089-2092 | valid is true exactly while the cursor is on a row |
| Results.Traverse | Orm.classes.php:2068-2093 | a foreach over a result visits every row once, in order, and changes no row |
| Results.ObjectsFromResult | Orm.classes.php:1244-1332 | objectsFromResult fails with the error of the first row that does not hydrate; otherwise it returns a fresh, finalized result for the chain holding one chain row per result row, in order |

## Left out

- The connection layer `SSql` is not part of this model. `SSql::validName`, `escape` and `sha1` become parameters of the members that use them (`ssqlValid`, `escape`, `sha1`), with no properties assumed.
- `getSqlResult`, its result cache, and `SSql::query` / `getResultsFor` are I/O. The hydrator takes the result rows as a parameter.
- `objectsFromDestinations` only chains `getSql`, the query and `objectsFromResult`. It is the composition of modelled parts with I/O in between.
- `sqlVar` is modelled for string values only. The integer, float and NULL branches, and the type errors they guard, are left out, because destination inputs are modelled as text.
- The `OrmSqlCache` lookup, `create_function` and `OrmSqlComponents::toRecipe` turn PHP source into closures. `OrmSqlCache.class.php` is not part of this model. `getSql` is modelled up to the components, the placeholders and the hash pre-image.
- PHP reflection (`class_exists`, `is_subclass_of`, `ReflectionClass`) is replaced by a catalog of class descriptors: declared properties, parent, instantiable flag and an optional `X_keys` list.
- PHP's loose `==` and `!=` between two strings are modelled as string equality. PHP compares two strings as numbers only when both are numeric strings, so `'00' == '0'` holds. In most comparisons of the core at least one side is not numeric, so string equality is exact there. These include class names, which are PHP identifiers starting with a letter or underscore, property names, and the constants `'id'`, `'Inherits'` and `'anchored'`. The places where both sides can be numeric are left out. They are a relationship name or destination alias compared with the anchor alias `'0'` or with each other (lines 560, 741, 812 and 940), and the groups of a chain word compared with `'0'` in chainFormatCallback (lines 1110 and 1116). A rule `A to B as 00` makes PHP treat the relationship `00` as the anchor at line 940, which the model does not. The aliases sqlFromRoute writes carry a counter rendered by one decimal rendering, so ChainFormat.MatchWordAlias is unaffected.
- `usort` with `cmpDests` is modelled as one stable insertion sort. PHP's sort algorithm, and its outcome for a comparison that is not an ordering, are not specified by PHP.
- `usort` followed by `array_pop` with `sizeCompare` is modelled as picking the last maximal candidate under that comparison, with the same caveat.
- Destinations are modelled as records with a class, an alias, inputs and an output flag. Object-valued inputs, `objectify` and arbitrary nested arrays are left out. `rshipRespecify` and `rshipRespecifyArray` are modelled by Generate.Respecify and Generate.Anchored.
- Object construction is left out. Populating `OrmClass` and `OrmRelationship` instances becomes `Obj(class, vars)` values with a bag of column values, because construction and persistence live outside the core.
- NULL column values are left out: every value in a result row is text.
- Call-time pass-by-reference (`&$paths`, `&$combos`, the references rewritten in `getSql`) becomes an accumulator returned by the method.
- `__set` on `OrmChainRow` and `OrmChainResult` only throws. The model offers no setter, so they cannot change state.
- `OrmChainResult::classByAlias` calls `$r->$alias()` on each row (line 2013). This reaches `OrmChainRow::__call` (line 1926) and so the row's class lookup. `OrmChainResult::__call` itself is commented out (lines 2029-2039), and `OrmChainResult::__get` (line 2042) dispatches on command names. When the alias is also the name of an `OrmChainRow` method, PHP calls that method instead of `__call`. This is left out: the model always does the class lookup.
- The immutability messages with their `%S` are not modelled, because the model has no `__set`. The other exception messages are given with their arguments filled in, as `sprintf` would fill them. This relies on the base class `SPFException` (line 100) formatting its arguments that way; `SPFException` is not part of this model.
- The `is_string($val)` check in `OrmSqlComponents::set` and `is_string($chain)` in its constructor hold by the types.
- Components.SqlComponents.constructor requires the extra clauses to have distinct keys, because a PHP array cannot hold a key twice.
- `getNames`, `getRules`, `getSSqlName`, `debugDump`, `validDbName`, `getHeirarchy`, `cmpWaypts` and the deprecated commented-out code are outside the core. `anchorInput` is modelled by Generate.Anchored: it puts the anchor class in front of each combination, as the `array_merge` at lines 671-673 does.
- The classes `OrmClass`, `OrmRelationship` and `OrmDbCreation`, with their persistence methods, are outside the core.
- The members that stand for functions taking a schema name `$name` take the stored schema instead. These are Resolve.Resolve, Chains.ChainRoute and Chains.RouteFromChain, Generate.Generated and Generate.GenerateSqlComponents, Compiler.CompileSql and Compiler.SqlFromRoute, Query.GetSqlOf and Query.GetSql, Hydrator.HydrateRow and Hydrator.BuildRow, and Results.ObjectsFromResult. The name lookups inside those functions have no counterpart there. The lookups are `name()` in `isRegisteredClass`, `isRegisteredIRelationship` and `isRegisteredRelationship` (lines 198-217), and `getSchema` reached from `sqlVar` through `getSSqlName` (lines 506, 254-256 and 238-245). The model thus covers calls with a valid, registered name. On a name that is not registered, PHP's getSql throws "Invalid Orm name specified" as soon as a destination has an input, and the model has no such case. The lookups themselves are Registry.Registry.GetSchema and the Registry.Registry.IsRegistered members.
- The `Iterator` interface of `OrmChainResult` is modelled by a position index, without PHP's `foreach` protocol.
- Combos.GetRoute requires at least two destinations. generateSqlComponents never calls getRoute with fewer.
- Query.Serialize writes the length of each string as its number of characters. PHP's `serialize` writes the number of bytes, which differs for text outside ASCII. Strings are modelled as character sequences.
- Class names are compared case-sensitively, as in Hydrator.OfClass and Destinations.IsClass. PHP's `class_exists` and `new` ignore case, so `person` and `Person` name the same PHP class and two different classes here.
- Selection.CompiledColumnsDecode states the read-back only for steps on registered classes and for relationship columns. The own columns of a step on an unregistered class are named `table__prop`, which has two parts, so `objectsFromResult` rejects them with "Unexpected key".
- Query.Prepare keeps the hash as written. The `OrmSqlCache` that would be keyed by it is not part of this model, so nothing else in the model depends on the hash. The corrected key is Query.CorrectedKey; see "## Findings".
- Concurrency: there is none in this code.

## Findings

| source | as written | input that shows it | evidently intended | confidence | as-written member | corrected member |
|---|---|---|---|---|---|---|
| Orm.classes.php:1827-1833 | `OrmSqlComponents::get` checks that the key is set and then returns the key itself | `get('select')` returns `'select'` instead of the SELECT list | return `$this->items[$item]` | not executed | Components.SqlComponents.Get | Components.SqlComponents.Value |
| Orm.classes.php:1936-1940 | `OrmChainRow::__isset` looks up the bare alias, but `__get` stores and finds relationships under `alias__0` | a row holding relationship `Owns__0`: `$row->Owns` is found, `isset($row->Owns)` is false | look up `alias__0`, as `__get` does | not executed | Hydrator.IsSetAsWritten, Hydrator.IsSetDisagrees | Hydrator.IsSet |
| Orm.classes.php:547-549 | the array branch of `isMatch` calls `isMatch($spec)` with one argument, so the alternative is taken as the rule and a NULL spec is checked | any array spec, such as `[{input: Person}, {output: Person}]`, throws | an array is an "or" over its alternatives | not executed | Router.IsMatchAsWritten | Router.NameAsAlternatives |
| Orm.classes.php:1204-1218 | the hash pre-image lists the chain, the output tag of each destination and the placeholder names; a destination with neither inputs nor an output adds nothing to it | `[A (output), B]` and `[A (output), C]` have the same pre-image but compile to different SQL | the cache key determines the SQL: equal keys give equal SQL | not executed | Query.PreimageMissesBareDestination | Query.CorrectedKeySameSql |
| Orm.classes.php:279-301 | `resolveRelationship` loops over the schema object's properties instead of its rules, and collects matches in the misspelled `$possiblities` | schema `Person to Dog as Owns`, resolving `Person` and `Dog`, throws "no matches found" | loop over `->rules` and collect into one array | not executed | Resolve.ResolveAsWritten, Resolve.ResolveAsWrittenNeverResolves, Resolve.ResolveDisagrees | Resolve.ResolveSpec |


