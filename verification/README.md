# Tempest core, modelled in Dafny

This project models five pieces of the Tempest PHP framework as immutable data and pure functions, and proves what they promise:

- **The dependency container** (`registry.dfy`, `resolver.dfy`, `container_properties.dfy`).
  - Bindings are keyed by a type plus an optional tag. A key holds a factory, a singleton factory or a cached instance.
  - Initializers are kept in insertion order.
  - Every class has reflection data: whether it can be instantiated, its constructor's parameters, and whether it carries the singleton attribute.
  - `get` resolves a key through a stack of in-flight frames. The stack detects cycles and names the failing dependency path.
  - Resolution fails with one of four errors: `CircularDependencyEncountered`, `DependencyCouldNotBeAutowired`, `DependencyCouldNotBeInstantiated` or `TaggedDependencyCouldNotBeResolved`.
  - Object identity is a serial number the container hands out. "Same instance" and "the factory ran once" can therefore be stated.
  - A ready instance handed to `singleton` is the caller's own object, with origin `Supplied`. The container's invariant `WellSerialled` says every cached object the container made carries a serial it has already issued. Under that invariant a newly made object differs from every cached one.
- **The view element factory** (`element_factory.dfy`). It turns a token tree into an element tree. `Token::compile`, `Token::compileChildren` and the container lookup of a view component are calls into code outside the model. The first two are passed in as functions; the third is represented by the class name requested.
- **The cookie manager** (`cookies.dfy`). It keeps the response's cookies in a map from key to cookie. The clock reading and the application's base URI are passed in.
- **The foreign-key-check statement** (`foreign_key_checks.dfy`). It compiles to MySQL or SQLite syntax, or fails with `UnsupportedDialect`.
- **Text interpolation** (`text_interpolation.dfy`). `TextElement::render` replaces every `{{ $this->… }}` placeholder with the view's evaluation of the expression.
  - The regular expression is modelled by a hand-written scanner.
  - A declarative statement of what the pattern matches, including the lazy group, is proved to agree with the scanner in both directions.
  - `View::eval` is a function parameter.

`wrappers.dfy` holds `Option` (PHP's `null`) and `Result` (a value or the exception thrown instead).

The container's implementation class is not part of this model. Its behaviour is fixed by the container's test suite, which the source column cites.

## Model

| member | source | states |
|---|---|---|
| Registry.Empty | packages/container/tests/ContainerTest.php:486-495 | a new container has no key and no initializer, and is well-serialled |
| Registry.Register | packages/container/tests/ContainerTest.php:77-89 | `register` binds exactly that key to the factory; every other key keeps its binding; the serial invariant is kept |
| Registry.SingletonKey | packages/container/tests/ContainerTest.php:602-611 | a singleton is kept under the explicit tag, else under the ready instance's own tag, else untagged |
| Registry.Singleton | packages/container/tests/ContainerTest.php:451-465 | a closure is bound to run once; a ready instance is cached at once; other keys are untouched; the serial invariant is kept when the ready instance is the caller's own or was issued earlier |
| Registry.Unregister | packages/container/tests/ContainerTest.php:436-484 | exactly the untagged key of the type is dropped, plus its tagged keys when `tagged` is set; all else stays; the serial invariant is kept |
| Registry.AddInitializer | packages/container/tests/ContainerTest.php:225-229 | the initializer is appended after all earlier ones, which keep their order |
| Registry.Has | packages/container/tests/ContainerTest.php:486-521 | `has` holds exactly when a binding is found for the key |
| Registry.InitializersInOrder | packages/container/tests/ContainerTest.php:225-229 | `getInitializers` starts empty, `addInitializer` appends at the end, and `register`, `singleton` and `unregister` leave the list unchanged |
| Registry.HasAfterBinding | packages/container/tests/ContainerTest.php:486-521 | `has` is false on an empty container and true, after `register` or `singleton`, for exactly the bound (type, tag) |
| Resolver.FindInitializer | packages/container/tests/ContainerTest.php:282-290 | the first initializer in insertion order that produces the key, and none when none does |
| Resolver.Resolve | packages/container/tests/ContainerTest.php:225-240 | a resolution only extends the store; failures carry the in-flight chain; a circular failure's chain is distinct frames followed by a repeat; a memoized key is cached |
| Resolver.FromBinding | packages/container/tests/ContainerTest.php:77-115 | a cached binding returns its instance unchanged; a factory or singleton factory makes a new object, numbered after every object made before, that differs from every cached instance when the store is well-serialled; a plain factory leaves the bindings alone; a singleton factory caches its object |
| Resolver.Build | packages/container/tests/ContainerTest.php:292-299 | an unbound key resolves to a newly made object, cached when kept as a singleton; with no initializer, a tagged key fails with `TaggedDependencyCouldNotBeResolved` and an untagged non-instantiable one with `DependencyCouldNotBeInstantiated`, both with the chain ending in the key |
| Resolver.Initialize | packages/container/tests/ContainerTest.php:191-199 | an initializer-made value is of the key's type and is newly made, and is cached under the key when the initializer is a singleton one |
| Resolver.Autowire | packages/container/tests/ContainerTest.php:327-338 | an autowired object has the class's type and one argument per constructor parameter, is newly made, and is cached when the class is a singleton |
| Resolver.RunInitializer | packages/container/tests/ContainerTest.php:91-100 | an initializer already on the stack fails at once as circular, with the chain ending in that initializer and nothing changed; otherwise a success is a newly made object of the requested type, naming the initializer, with one value per declared dependency |
| Resolver.Initialized | packages/container/tests/ContainerTest.php:117-126 | a success is a newly made object of the requested type, naming the initializer, with one value per declared dependency; failures keep the in-flight chain |
| Resolver.ResolveAll | packages/container/tests/ContainerTest.php:225-240 | a success gives one value per dependency; failures keep the in-flight chain and the cycle shape |
| Resolver.AutowireParams | packages/container/tests/ContainerTest.php:67-75 | a success gives one value per constructor parameter; failures keep the in-flight chain and the cycle shape |
| Resolver.AutowireParam | packages/container/tests/ContainerTest.php:144-178 | the parameter's resolution only extends the store and keeps the chain and cycle shape |
| Resolver.TryUnion | packages/container/tests/ContainerTest.php:180-189 | union members are tried in order, carrying the store along |
| Resolver.Get | packages/container/tests/ContainerTest.php:67-75 | `get` keeps the initializers, only extends the bindings, reports true cycles, and keeps the serial invariant |
| Resolver.InvokeArguments | packages/container/tests/ContainerTest.php:374-390 | `invoke` resolves one argument per parameter of the callable |
| ContainerProperties.RegisterThenGet | packages/container/tests/ContainerTest.php:77-89 | after `register(k, f)`, `get(k)` returns a new object made by `f` and leaves the bindings as they were |
| ContainerProperties.FactoryGivesFreshInstances | packages/container/tests/ContainerTest.php:77-89 | a plain factory runs on every `get`, so two `get`s give two different instances |
| ContainerProperties.CachedIsStable | packages/container/tests/ContainerTest.php:451-458 | a cached instance is returned as is and the container is unchanged |
| ContainerProperties.MemoizedGetIsStable | packages/container/tests/ContainerTest.php:191-199 | for a singleton binding, singleton initializer or singleton class, a second `get` returns the same instance and changes nothing |
| ContainerProperties.SingletonRunsOnce | packages/container/tests/ContainerTest.php:102-115 | the singleton closure runs on the first `get` only, and the second `get` returns the same instance |
| ContainerProperties.TaggedSingletonsCoexist | packages/container/tests/ContainerTest.php:242-280 | two singletons of one type under different string or enum tags each resolve to their own instance |
| ContainerProperties.OwnTaggedInstancesCoexist | packages/container/tests/ContainerTest.php:602-611 | instances carrying their own tags, registered untagged, each resolve under their own tag |
| ContainerProperties.ResolveAllStep | packages/container/tests/ContainerTest.php:225-240 | the i-th dependency's value is what resolving it gives in the store the earlier ones left, and the first failing dependency's failure is the whole failure |
| ContainerProperties.AutowireParamsStep | packages/container/tests/ContainerTest.php:67-75 | the i-th constructor argument is what autowiring the i-th parameter gives in the store the earlier ones left, and the first failing parameter's failure is the whole failure |
| ContainerProperties.InitializerDepsResolved | packages/container/tests/ContainerTest.php:91-100 | an initializer's object holds, in order, what each dependency resolved to with the initializer on the stack, and the first failing dependency's failure is the initializer's failure |
| ContainerProperties.InitializerSucceeds | packages/container/tests/ContainerTest.php:91-100 | an unbound key whose first initializer asks only for bound keys always gets a new object of its type from that initializer, with each cached dependency passed as its instance |
| ContainerProperties.AutowireSucceeds | packages/container/tests/ContainerTest.php:144-178 | an unprovided instantiable class whose parameters each fall back or name a bound class first is always autowired, with the fallback values and the cached instances as arguments |
| ContainerProperties.GetWithAutowire | packages/container/tests/ContainerTest.php:67-75 | with B's constructor taking an A, `get(B)` on an empty container gives a B whose argument is a new A |
| ContainerProperties.AddInitializerThenGet | packages/container/tests/ContainerTest.php:117-126 | after `addInitializer(i)`, an unbound key only `i` produces, whose dependencies are bound, is made by `i`, and is kept under the key when `i` is a singleton initializer |
| ContainerProperties.FactoryObjectIsNew | packages/container/tests/ContainerTest.php:77-89 | in a well-serialled container a factory's object differs from any value the caller already holds, and the container stays well-serialled |
| ContainerProperties.InitializedObject | packages/container/tests/ContainerTest.php:201-223 | an unbound key an initializer produces is made by the first such initializer, with the requested type |
| ContainerProperties.AutowiredObject | packages/container/tests/ContainerTest.php:67-75 | an unprovided class is autowired into an object of that class with one argument per constructor parameter |
| ContainerProperties.TaggedUnresolved | packages/container/tests/ContainerTest.php:292-299 | a tagged key with no binding and no initializer fails with `TaggedDependencyCouldNotBeResolved` and caches nothing |
| ContainerProperties.ConstructorFailurePropagates | packages/container/tests/ContainerTest.php:313-325 | a failure in a constructor's only required class argument is the failure of building the class |
| ContainerProperties.InitializerFailurePropagates | packages/container/tests/ContainerTest.php:225-240 | a failure in an initializer's only dependency is the failure of the key the initializer was chosen for |
| ContainerProperties.TaggedUnresolvedThroughAutowiring | packages/container/tests/ContainerTest.php:313-325 | a tagged constructor dependency that cannot be resolved fails with the chain [class, tagged key] |
| ContainerProperties.UnregisterThenGet | packages/container/tests/ContainerTest.php:436-465 | after `unregister`, `get` on an interface with no initializer fails with `DependencyCouldNotBeInstantiated` |
| ContainerProperties.UnregisterTaggedThenGet | packages/container/tests/ContainerTest.php:467-484 | after `unregister(T, tagged: true)`, a tagged `get` fails with `TaggedDependencyCouldNotBeResolved` |
| ContainerProperties.SelfDependencyIsCircular | packages/container/tests/ContainerTest.php:225-240 | a constructor needing its own class fails as circular with the chain [A, A] |
| ContainerProperties.CycleThroughInitializer | packages/container/tests/ContainerTest.php:225-240 | the cycle A → B → B's initializer → C → A fails as circular, and its chain names every type and the initializer in order |
| ContainerProperties.ExplicitArgumentWins | packages/container/tests/ContainerTest.php:374-381 | an explicitly given argument of a fitting type is used as is |
| ContainerProperties.BuiltinFallbacks | packages/container/tests/ContainerTest.php:144-178 | a builtin without an initializer gets null when nullable, else its default, else `[]` when iterable, else fails with `DependencyCouldNotBeAutowired` |
| ContainerProperties.BuiltinInitializerWins | packages/container/tests/ContainerTest.php:411-424 | a builtin parameter with an initializer for its type gets that initializer's value |
| ContainerProperties.UnionTakesFirstResolving | packages/container/tests/ContainerTest.php:180-189 | a union takes the first member when it resolves |
| ContainerProperties.UnionSkipsUnprovided | packages/container/tests/ContainerTest.php:180-189 | an uninstantiable, unprovided union member is skipped without effect |
| ContainerProperties.UnionFallbacks | packages/container/tests/ContainerTest.php:168-178 | a union none of whose members resolves gets null when nullable, else its default, else the last member's failure |
| ContainerProperties.OptionalClassParameterIsNull | packages/container/tests/ContainerTest.php:168-178 | a nullable class parameter nothing can provide is built as null |
| ContainerProperties.InvokeUnresolvableBuiltin | packages/container/tests/ContainerTest.php:383-390 | invoking a callable with a required `string` parameter nothing supplies fails with `DependencyCouldNotBeAutowired` |
| ElementFactory.Make | packages/view/src/Elements/ElementFactory.php:36-42 | `make` gives null exactly for the skipped structural token types and for content that trims to `''`; an element never has more children than the token |
| ElementFactory.Trim | packages/view/src/Elements/ElementFactory.php:58 | the trimmed text is no longer than the input, neither starts nor ends with a `trim` character, and is the input itself when it holds no `trim` character |
| ElementFactory.TrimLeft | packages/view/src/Elements/ElementFactory.php:58 | strips exactly the leading run of PHP `trim` characters |
| ElementFactory.TrimRight | packages/view/src/Elements/ElementFactory.php:58 | strips exactly the trailing run of PHP `trim` characters |
| ElementFactory.TrimEmptyIff | packages/view/src/Elements/ElementFactory.php:55-63 | a text trims to `''` exactly when all its characters are `trim` characters |
| ElementFactory.GetAttribute | packages/view/src/Elements/ElementFactory.php:85 | an attribute value is found exactly when the token has an attribute of that name |
| ElementFactory.NatToString | packages/view/src/Elements/ElementFactory.php:72 | `(string) $index` is a non-empty run of decimal digits |
| ElementFactory.ParseNatToString | packages/view/src/Elements/ElementFactory.php:71-73 | the index names read back as their index, so PHP attributes get distinct names |
| ElementFactory.PhpAttributes | packages/view/src/Elements/ElementFactory.php:71-73 | one PHP attribute per PHP fragment, named by its position, in order |
| ElementFactory.Attributes | packages/view/src/Elements/ElementFactory.php:69-73 | the HTML attributes in order, then the PHP attributes |
| ElementFactory.ComponentFor | packages/view/src/Elements/ElementFactory.php:84-91 | a truthy `is` or `:is` swaps in a dynamic component; otherwise a class name is fetched from the container and a ready component is used as is |
| ElementFactory.MakeElement | packages/view/src/Elements/ElementFactory.php:44-137 | skipped token types give null; content gives null exactly when its text trims to `''`, else a text element of exactly that text; the other types always give an element; attributes are the token's; children are never more than the child tokens |
| ElementFactory.MakeChildren | packages/view/src/Elements/ElementFactory.php:119-132 | no more children than child tokens remain |
| ElementFactory.ChildrenArePresentResults | packages/view/src/Elements/ElementFactory.php:119-134 | the children loop equals mapping every child token and dropping the nulls |
| ElementFactory.ElementChildren | packages/view/src/Elements/ElementFactory.php:119-134 | an element's children are the non-null results of its child tokens, in order |
| ElementFactory.RawTokens | packages/view/src/Elements/ElementFactory.php:65-67 | tokens without a truthy tag, comments and PHP give an untagged raw element of their compiled text |
| ElementFactory.CodeAndPreAreRaw | packages/view/src/Elements/ElementFactory.php:75-82 | `code` and `pre` give a raw element of the compiled children, with the token's attributes |
| ElementFactory.TagDispatch | packages/view/src/Elements/ElementFactory.php:84-117 | a registered view component beats `x-template`, `x-slot` and generic tags; a slot without `name` is the default slot |
| Cookies.Plain | packages/http/src/Cookie/CookieManager.php:73 | a cookie from key, value and expiry has every other field at its default |
| Cookies.All | packages/http/src/Cookie/CookieManager.php:26-29 | `all` holds exactly the keys `get` finds, each with the cookie `get` returns |
| Cookies.Get | packages/http/src/Cookie/CookieManager.php:31-34 | the stored cookie for the key, or null exactly when there is none |
| Cookies.MaxAge | packages/http/src/Cookie/CookieManager.php:63-65 | seconds until expiry, and 0 once expired: never negative |
| Cookies.Add | packages/http/src/Cookie/CookieManager.php:60-69 | the cookie is stored under its key with max-age from the clock when it has an expiry, otherwise unchanged; other keys are untouched |
| Cookies.Set | packages/http/src/Cookie/CookieManager.php:39-55 | a new cookie gets path `/`, http-only, SameSite Lax, and is secure exactly for an `https` base URI; an existing cookie keeps its fields; the value is replaced and the expiry only when given; the stored cookie is returned |
| Cookies.Remove | packages/http/src/Cookie/CookieManager.php:71-76 | the key holds an empty cookie expiring at -1, with max-age 0 for any clock from -1 on; other keys are untouched |
| Cookies.SetIdempotent | packages/http/src/Cookie/CookieManager.php:39-55 | setting the same cookie twice at the same moment changes nothing the second time |
| Cookies.RemoveThenGet | packages/http/src/Cookie/CookieManager.php:71-76 | after `remove`, `get` returns the tombstone cookie |
| Cookies.SetAfterRemoveKeepsTombstoneFields | packages/http/src/Cookie/CookieManager.php:41-50 | `set` after `remove` starts from the tombstone, not from the defaults |
| ForeignKeyChecks.DefaultStatement | src/Tempest/Database/QueryStatements/SetForeignKeyChecksStatement.php:15-18 | `enable` defaults to true |
| ForeignKeyChecks.FlagText | src/Tempest/Database/QueryStatements/SetForeignKeyChecksStatement.php:23-24 | the flag renders as one character, `1` exactly when enabled and `0` exactly when not |
| ForeignKeyChecks.Compile | src/Tempest/Database/QueryStatements/SetForeignKeyChecksStatement.php:20-27 | MySQL gives `SET FOREIGN_KEY_CHECKS = 1/0`, SQLite `PRAGMA foreign_keys = 1/0`, and every other dialect fails with `UnsupportedDialect` |
| ForeignKeyChecks.ParseCompile | src/Tempest/Database/QueryStatements/SetForeignKeyChecksStatement.php:22-26 | every compiled statement reads back to exactly its dialect and flag |
| ForeignKeyChecks.CompileInjective | src/Tempest/Database/QueryStatements/SetForeignKeyChecksStatement.php:22-26 | two statements compile alike exactly when dialect and flag agree |
| TextInterpolation.Render | src/Tempest/View/Elements/TextElement.php:16-25 | text without `{{` renders as itself |
| TextInterpolation.SkipSpace | src/Tempest/View/Elements/TextElement.php:19 | greedy `\s*` stops at the first non-space character |
| TextInterpolation.LazyEnd | src/Tempest/View/Elements/TextElement.php:19 | the lazy `.*?` ends at the earliest point followed by `\s*}}` with no line feed before it, or there is no such point |
| TextInterpolation.MatchAt | src/Tempest/View/Elements/TextElement.php:19 | a reported match has the pattern's shape and lies within the text |
| TextInterpolation.MatchAtSound | src/Tempest/View/Elements/TextElement.php:19 | every match the scanner reports is the pattern's match, with the earliest possible end of the group |
| TextInterpolation.MatchAtComplete | src/Tempest/View/Elements/TextElement.php:19 | wherever the pattern fits, the scanner reports a match |
| TextInterpolation.MatchAtIff | src/Tempest/View/Elements/TextElement.php:19 | the scanner reports `m` at `i` exactly when `m` is the pattern's match at `i` |
| TextInterpolation.ExpressionShape | src/Tempest/View/Elements/TextElement.php:19 | the expression begins with `$this->`, has no line feed, and does not end in white space |
| TextInterpolation.NoMatchUnchanged | src/Tempest/View/Elements/TextElement.php:18-23 | text with no match is copied verbatim |
| TextInterpolation.NoBracesUnchanged | src/Tempest/View/Elements/TextElement.php:18-23 | text without `{{` renders as itself |
| TextInterpolation.FirstMatchReplaced | src/Tempest/View/Elements/TextElement.php:18-23 | text before the leftmost match is kept, the match becomes its evaluation or `''` for null, and scanning resumes after it |
| TextInterpolation.RenderCopiesUnmatched | src/Tempest/View/Elements/TextElement.php:18-23 | a position where nothing matches contributes its own character |
| TextInterpolation.NonThisExpressionIsLiteral | src/Tempest/View/Elements/TextElement.php:19 | `{{ $foo }}` is left literal |
| TextInterpolation.PlaceholderReplaced | src/Tempest/View/Elements/TextElement.php:18-23 | `a{{ $this->x }}b` renders as `a`, then the evaluation of `$this->x` or `''`, then `b` |

## Left out

- Lazy dependencies and their timing behaviour: they depend on wall-clock time and proxy objects.
- `#[Inject]` property injection: the model has constructor parameters only.
- `invoke` on PHP callables, closures and reflection objects: only the arguments resolved for a callable's parameter list are modelled. The fallback that transforms an unmatched argument through an initializer is left out. So is `InvokedCallableWasInvalid`, since it needs PHP callable validation.
- `setInstance` and the global `invoke` helper: they are process-global state.
- Resolver.Accepts: an explicit argument fits by exact type name or union membership, not by PHP subtyping, because the model has no class hierarchy.
- Resolver.AutowireParam: its own contract states only the store and chain invariants. The fallback order for one parameter (a fitting explicit argument, then an initializer for a builtin type, then null when nullable, the default, and `[]` when iterable) is stated by ContainerProperties.ExplicitArgumentWins, ContainerProperties.BuiltinFallbacks, ContainerProperties.BuiltinInitializerWins and ContainerProperties.OptionalClassParameterIsNull.
- Resolver.TryUnion: its own contract states only the store and chain invariants. Which member wins is stated by ContainerProperties.UnionTakesFirstResolving, ContainerProperties.UnionSkipsUnprovided and ContainerProperties.UnionFallbacks.
- Resolver.Get: its own contract states only the invariants shared by every resolution. What is returned for each kind of binding is stated by the ContainerProperties lemmas.
- Error message text (the box-drawn chain, file paths): the chain is kept as a sequence of frames.
- Resolver.FromBinding: a factory's object is recorded with the key's type; what the closure actually builds is outside the model.
- The fallback order for one parameter (a fitting explicit argument, then an initializer for a builtin type, then null when nullable, then the default, then `[]` when iterable) is an assumption. The container's tests do not decide it, and the implementation class is not part of this model.
- Resolver.Initialized: its own contract does not state that the dependencies are resolved in order or that the first failure ends the walk. ContainerProperties.InitializerDepsResolved states both.
- Resolver.ResolveAll: its own contract does not state that the values come in order or that the first failure ends the walk. ContainerProperties.ResolveAllStep states both.
- Resolver.AutowireParams: its own contract does not state that the arguments come in order or that the first failure ends the walk. ContainerProperties.AutowireParamsStep states both.
- Resolver.FromBinding: a factory's object is new only with respect to objects the container made or the caller holds under the `WellSerialled` invariant. A ready instance passed to `singleton` with a serial the container has not yet issued could collide; the model does not promise otherwise.
- Registry.SingletonKey: an explicit tag is taken over the ready instance's own tag. The container's tests never give both, so this precedence is an assumption.
- Tags: a string tag never equals an enum tag. The container's tests never compare the two kinds, so this is an assumption.
- Registry.Initializers: a plain accessor with no contract of its own. Registry.InitializersInOrder states what it returns.
- TextInterpolation.RenderFrom: it has no contract of its own. TextInterpolation.NoMatchUnchanged, TextInterpolation.FirstMatchReplaced and TextInterpolation.RenderCopiesUnmatched state what it does.
- Cookie object sharing: PHP cookies are shared objects. `set` changes an existing cookie in place, so a caller holding it sees the change (CookieManager.php:41-54), and `add` overwrites the max-age of the cookie the caller passed (CookieManager.php:62-66). The model has values only and returns the stored cookie instead.
- Cookies.Plain: the other fields are taken at the defaults of the `Cookie` constructor, which is not part of this model.
- Cookie insertion order: the jar is a map, so `all` does not record the order in which keys were first added.
- Cookie expiry: a `DateTimeInterface` expiry is held as the Unix time the cookie's own conversion yields. The conversion and the clock are inputs.
- ElementFactory.MakeElement: the environment and compiler handed to view-component elements are not modelled. The `parent` argument is always null in the source, so it is dropped. Token types other than the seven the factory distinguishes are one `OtherType` case.
- ElementFactory.GetAttribute: `Token::getAttribute` is not part of this model. It is taken to return the value of the first HTML attribute of that name. The contract states only when a value is found, not which one.
- ElementFactory.TagDispatch: the slot name default is taken as `"default"`, since the slot class is not part of this model.
- `DeferController` and statement execution: both are I/O.
