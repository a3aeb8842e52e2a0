/**
 * Resolution: `get(type, tag)` on the container. A request is answered, in
 * order, by the cycle check, the binding for its key, the first initializer
 * that can produce the key, the tagged-key failure, and finally by
 * autowiring the class's constructor. The in-flight requests form a stack
 * of frames that both detects cycles and names the failing dependency path.
 */
module Resolver {
  import opened Wrappers
  import opened Registry

  /** One in-flight step of a resolution: a key being built, or an initializer running. */
  datatype Frame = Resolving(key: Key) | Initializing(initializer: InitializerName)

  /** The container's exceptions, each with the chain of frames that led to it. */
  datatype ResolveError =
    | CircularDependencyEncountered(chain: seq<Frame>)
    | DependencyCouldNotBeAutowired(param: string, chain: seq<Frame>)
    | DependencyCouldNotBeInstantiated(ty: TypeName, chain: seq<Frame>)
    | TaggedDependencyCouldNotBeResolved(key: Key, chain: seq<Frame>)

  /** A result together with the store as it stands afterwards (singletons cached on the way stay cached, even on failure). */
  datatype Outcome<+T> = Outcome(result: Result<T, ResolveError>, store: Store)

  /** No frame occurs twice. */
  predicate Distinct(stack: seq<Frame>) {
    forall i, j :: 0 <= i < j < |stack| ==> stack[i] != stack[j]
  }

  /**
   * A circular-dependency chain: distinct frames in flight, then a repeat of
   * one of them, so that the chain from that frame on is the cycle.
   */
  predicate IsCycle(chain: seq<Frame>) {
    && |chain| >= 2
    && Distinct(chain[..|chain| - 1])
    && chain[|chain| - 1] in chain[..|chain| - 1]
  }

  /** `v` is an object the container made while the store went from `s` to `s'`. */
  predicate Made(s: Store, s': Store, v: Value) {
    && v.Object? && !v.origin.Supplied?
    && s.serial <= v.serial < s'.serial
  }

  /** A binding cached during the resolution that took `s` to `s'`: it holds an object made on the way. */
  predicate NewlyCached(s: Store, s': Store, b: Binding) {
    b.Cached? && Made(s, s', b.instance)
  }

  /** How a binding may change while `s` becomes `s'`: only a singleton factory may turn into a newly cached instance. */
  predicate Kept(s: Store, s': Store, b: Binding, b': Binding) {
    b' == b || (b.SingletonFactory? && NewlyCached(s, s', b'))
  }

  /**
   * The store after a resolution extends the store before: serials only
   * grow, no binding disappears, a binding changes only when a singleton
   * factory is replaced by its instance, and new bindings are cached
   * instances. Every instance cached on the way is an object made on the way.
   */
  predicate Extends(s: Store, s': Store) {
    && s.serial <= s'.serial
    && (forall k :: k in s.bindings ==> k in s'.bindings && Kept(s, s', s.bindings[k], s'.bindings[k]))
    && (forall k :: k in s'.bindings && k !in s.bindings ==> NewlyCached(s, s', s'.bindings[k]))
  }

  lemma ExtendsTransitive(s1: Store, s2: Store, s3: Store)
    requires Extends(s1, s2) && Extends(s2, s3)
    ensures Extends(s1, s3)
  {
    forall k | k in s3.bindings && k !in s1.bindings
      ensures NewlyCached(s1, s3, s3.bindings[k])
    {
      if k in s2.bindings {
        assert NewlyCached(s1, s2, s2.bindings[k]);
      }
    }
    forall k | k in s1.bindings
      ensures Kept(s1, s3, s1.bindings[k], s3.bindings[k])
    {
      if s2.bindings[k] != s1.bindings[k] {
        assert NewlyCached(s1, s2, s2.bindings[k]);
      }
    }
  }

  /** Making an object takes the next serial; the store still extends the one before. */
  lemma Bump(s: Store, s2: Store)
    requires Extends(s, s2)
    ensures Extends(s, s2.(serial := s2.serial + 1))
  {
    var s3 := s2.(serial := s2.serial + 1);
    forall k | k in s.bindings ensures Kept(s, s3, s.bindings[k], s3.bindings[k]) {
      assert Kept(s, s2, s.bindings[k], s2.bindings[k]);
    }
    forall k | k in s3.bindings && k !in s.bindings ensures NewlyCached(s, s3, s3.bindings[k]) {
      assert NewlyCached(s, s2, s2.bindings[k]);
    }
  }

  /** Caching, under a key that was unbound, an object made on the way keeps the store an extension. */
  lemma CacheMade(s: Store, s2: Store, k: Key, v: Value)
    requires Extends(s, s2) && k !in s.bindings && Made(s, s2, v)
    ensures Extends(s, s2.(bindings := s2.bindings[k := Cached(v)]))
  {
  }

  /** A store that only extends keeps every cached instance the caller's own or already handed out. */
  lemma ExtendsKeepsWellSerialled(s: Store, s': Store)
    requires WellSerialled(s) && Extends(s, s')
    ensures WellSerialled(s')
  {
    forall k | k in s'.bindings && s'.bindings[k].Cached?
      ensures Issued(s', s'.bindings[k].instance)
    {
      if k in s.bindings && s'.bindings[k] == s.bindings[k] {
        assert Issued(s, s.bindings[k].instance);
      }
    }
  }

  /** The first initializer, in insertion order, that can produce `k`. */
  function FindInitializer(inits: seq<Initializer>, k: Key): (r: Option<nat>)
    ensures r.Some? ==> r.value < |inits| && k in inits[r.value].produces
    ensures r.Some? ==> forall j :: 0 <= j < r.value ==> k !in inits[j].produces
    ensures r.None? ==> forall j :: 0 <= j < |inits| ==> k !in inits[j].produces
  {
    if |inits| == 0 then None
    else if k in inits[0].produces then Some(0)
    else
      match FindInitializer(inits[1..], k)
      case None => None
      case Some(j) => Some(j + 1)
  }

  /** Whether an explicitly supplied value fits a declared parameter type. */
  predicate Accepts(pt: ParamType, v: Value) {
    match v
    case Null => false
    case EmptyArray => pt.Builtin? && pt.iterable
    case Scalar(ty, _) => pt.Builtin? && pt.name == ty
    case Object(ty, _, _) => pt.Classes? && ty in pt.members
  }

  /**
   * Every frame a resolution can push: the untagged key of each known class,
   * each key an initializer produces, and each initializer. Only frames of
   * this finite set are ever pushed, and never twice, which bounds the depth.
   */
  function Frames(refl: Reflection, inits: seq<Initializer>): set<Frame> {
    (set t | t in refl :: Resolving(Key(t, None)))
    + (set i, k | i in inits && k in i.produces :: Resolving(k))
    + (set i | i in inits :: Initializing(i.name))
  }

  function AsSet(stack: seq<Frame>): set<Frame> {
    set f | f in stack
  }

  /** The frames that may still be pushed on top of `stack`. */
  function Pending(refl: Reflection, inits: seq<Initializer>, stack: seq<Frame>): nat {
    |Frames(refl, inits) - AsSet(stack)|
  }

  lemma PushShrinksPending(refl: Reflection, inits: seq<Initializer>, stack: seq<Frame>, f: Frame)
    requires f in Frames(refl, inits) && f !in stack
    ensures Pending(refl, inits, stack + [f]) < Pending(refl, inits, stack)
  {
    var u := Frames(refl, inits);
    assert AsSet(stack + [f]) == AsSet(stack) + {f};
    assert u - AsSet(stack + [f]) == (u - AsSet(stack)) - {f};
    assert f in u - AsSet(stack);
  }

  lemma ProducedKeyIsFrame(refl: Reflection, inits: seq<Initializer>, j: nat, k: Key)
    requires j < |inits| && k in inits[j].produces
    ensures Resolving(k) in Frames(refl, inits)
  {
    assert inits[j] in inits;
  }

  lemma InitializerIsFrame(refl: Reflection, inits: seq<Initializer>, j: nat)
    requires j < |inits|
    ensures Initializing(inits[j].name) in Frames(refl, inits)
  {
    assert inits[j] in inits;
  }

  lemma ClassIsFrame(refl: Reflection, inits: seq<Initializer>, t: TypeName)
    requires t in refl
    ensures Resolving(Key(t, None)) in Frames(refl, inits)
  {
  }

  /** Pushing a frame that is not on the stack keeps the stack free of repeats. */
  lemma PushDistinct(stack: seq<Frame>, f: Frame)
    requires Distinct(stack) && f !in stack
    ensures Distinct(stack + [f])
  {
  }

  /**
   * Whether an unbound `k` is kept once made: its first initializer is a
   * singleton one, or, with no initializer, it is the untagged key of a
   * class carrying the singleton attribute.
   */
  predicate KeptAsSingleton(refl: Reflection, inits: seq<Initializer>, k: Key) {
    match FindInitializer(inits, k)
    case Some(j) => inits[j].singleton
    case None => k.tag.None? && k.ty in refl && refl[k.ty].singleton
  }

  /** Whether a successful `resolve(k)` leaves its value cached under `k`: every binding but a plain factory does. */
  predicate Memoized(refl: Reflection, inits: seq<Initializer>, s: Store, k: Key) {
    if k in s.bindings then !s.bindings[k].Factory? else KeptAsSingleton(refl, inits, k)
  }

  /**
   * `resolve(k)` with `stack` in flight and `args` the explicitly supplied
   * constructor arguments by parameter name.
   */
  function Resolve(refl: Reflection, inits: seq<Initializer>, s: Store, k: Key, stack: seq<Frame>, args: map<string, Value>): (o: Outcome<Value>)
    requires Distinct(stack)
    ensures Extends(s, o.store)
    ensures o.result.Failure? ==> stack <= o.result.error.chain
    ensures o.result.Failure? && o.result.error.CircularDependencyEncountered? ==>
              IsCycle(o.result.error.chain)
    ensures o.result.Success? && Resolving(k) !in stack && Memoized(refl, inits, s, k) ==>
              k in o.store.bindings && o.store.bindings[k] == Cached(o.result.value)
    decreases Pending(refl, inits, stack), 0, 2
  {
    if Resolving(k) in stack then
      var chain := stack + [Resolving(k)];
      assert chain[..|chain| - 1] == stack;
      Outcome(Failure(CircularDependencyEncountered(chain)), s)
    else if k in s.bindings then
      FromBinding(s, k)
    else
      Build(refl, inits, s, k, stack, args)
  }

  /**
   * A bound key: a cached instance is returned as is; a factory makes a new
   * object; a singleton factory makes one and caches it in place of itself.
   */
  function FromBinding(s: Store, k: Key): (o: Outcome<Value>)
    requires k in s.bindings
    ensures Extends(s, o.store)
    ensures o.result.Success?
    ensures s.bindings[k].Cached? ==> o == Outcome(Success(s.bindings[k].instance), s)
    ensures !s.bindings[k].Cached? ==>
              && o.result.value == Object(k.ty, ByFactory(s.bindings[k].factory), s.serial)
              && o.store.serial == s.serial + 1
    ensures s.bindings[k].Factory? ==> o.store.bindings == s.bindings
    ensures s.bindings[k].SingletonFactory? ==> o.store.bindings == s.bindings[k := Cached(o.result.value)]
    ensures !s.bindings[k].Cached? ==> Made(s, o.store, o.result.value)
    ensures WellSerialled(s) && !s.bindings[k].Cached? ==>
              forall k' :: k' in s.bindings && s.bindings[k'].Cached? ==> o.result.value != s.bindings[k'].instance
  {
    match s.bindings[k]
    case Cached(v) => Outcome(Success(v), s)
    case Factory(f) =>
      Outcome(Success(Object(k.ty, ByFactory(f), s.serial)), s.(serial := s.serial + 1))
    case SingletonFactory(f) =>
      var v := Object(k.ty, ByFactory(f), s.serial);
      Outcome(Success(v), Store(s.bindings[k := Cached(v)], s.serial + 1))
  }

  /** An unbound key not in flight: the first initializer that produces it, else the tag failure, else autowiring. */
  function Build(refl: Reflection, inits: seq<Initializer>, s: Store, k: Key, stack: seq<Frame>, args: map<string, Value>): (o: Outcome<Value>)
    requires Distinct(stack) && Resolving(k) !in stack && k !in s.bindings
    ensures Extends(s, o.store)
    ensures o.result.Failure? ==> stack <= o.result.error.chain
    ensures o.result.Failure? && o.result.error.CircularDependencyEncountered? ==>
              IsCycle(o.result.error.chain)
    ensures o.result.Success? && KeptAsSingleton(refl, inits, k) ==>
              k in o.store.bindings && o.store.bindings[k] == Cached(o.result.value)
    ensures FindInitializer(inits, k).None? && k.tag.Some? ==>
              o == Outcome(Failure(TaggedDependencyCouldNotBeResolved(k, stack + [Resolving(k)])), s)
    ensures FindInitializer(inits, k).None? && k.tag.None? && (k.ty !in refl || !refl[k.ty].instantiable) ==>
              o == Outcome(Failure(DependencyCouldNotBeInstantiated(k.ty, stack + [Resolving(k)])), s)
    ensures o.result.Success? ==> Made(s, o.store, o.result.value)
    decreases Pending(refl, inits, stack), 0, 1
  {
    var frames := stack + [Resolving(k)];
    match FindInitializer(inits, k)
    case Some(j) => Initialize(refl, inits, s, k, j, stack)
    case None =>
      if k.tag.Some? then
        Outcome(Failure(TaggedDependencyCouldNotBeResolved(k, frames)), s)
      else if k.ty !in refl || !refl[k.ty].instantiable then
        Outcome(Failure(DependencyCouldNotBeInstantiated(k.ty, frames)), s)
      else
        Autowire(refl, inits, s, k, stack, args)
  }

  /** `k` produced by initializer `inits[j]`, cached under `k` when the initializer is a singleton one. */
  function Initialize(refl: Reflection, inits: seq<Initializer>, s: Store, k: Key, j: nat, stack: seq<Frame>): (o: Outcome<Value>)
    requires Distinct(stack) && Resolving(k) !in stack && k !in s.bindings
    requires j < |inits| && k in inits[j].produces
    ensures Extends(s, o.store)
    ensures o.result.Failure? ==> stack <= o.result.error.chain
    ensures o.result.Failure? && o.result.error.CircularDependencyEncountered? ==>
              IsCycle(o.result.error.chain)
    ensures o.result.Success? && inits[j].singleton ==> k in o.store.bindings && o.store.bindings[k] == Cached(o.result.value)
    ensures o.result.Success? ==>
              && o.result.value.Object? && o.result.value.ty == k.ty
              && o.result.value.origin.ByInitializer? && o.result.value.origin.initializer == inits[j].name
    ensures o.result.Success? ==> Made(s, o.store, o.result.value)
    decreases Pending(refl, inits, stack), 0, 0
  {
    PushDistinct(stack, Resolving(k));
    ProducedKeyIsFrame(refl, inits, j, k);
    PushShrinksPending(refl, inits, stack, Resolving(k));
    var o := RunInitializer(refl, inits, s, j, k.ty, stack + [Resolving(k)]);
    if o.result.Success? && inits[j].singleton then
      CacheMade(s, o.store, k, o.result.value);
      Outcome(o.result, o.store.(bindings := o.store.bindings[k := Cached(o.result.value)]))
    else
      o
  }

  /**
   * `k` built by its class's constructor from autowired arguments, and
   * cached under `k` when the class carries the singleton attribute.
   */
  function Autowire(refl: Reflection, inits: seq<Initializer>, s: Store, k: Key, stack: seq<Frame>, args: map<string, Value>): (o: Outcome<Value>)
    requires Distinct(stack) && Resolving(k) !in stack && k !in s.bindings
    requires k.tag.None? && k.ty in refl
    ensures Extends(s, o.store)
    ensures o.result.Failure? ==> stack <= o.result.error.chain
    ensures o.result.Failure? && o.result.error.CircularDependencyEncountered? ==>
              IsCycle(o.result.error.chain)
    ensures o.result.Success? ==>
              && o.result.value.Object? && o.result.value.ty == k.ty
              && o.result.value.origin.ByConstructor? && |o.result.value.origin.args| == |refl[k.ty].params|
              && Made(s, o.store, o.result.value)
    ensures o.result.Success? && refl[k.ty].singleton ==> k in o.store.bindings && o.store.bindings[k] == Cached(o.result.value)
    decreases Pending(refl, inits, stack), 0, 0
  {
    var cls := refl[k.ty];
    PushDistinct(stack, Resolving(k));
    ClassIsFrame(refl, inits, k.ty);
    assert k == Key(k.ty, None);
    PushShrinksPending(refl, inits, stack, Resolving(k));
    ConstructedObject(s, AutowireParams(refl, inits, s, cls.params, stack + [Resolving(k)], args), k, cls.singleton)
  }

  /** The class's object from its constructor arguments, cached under `k` for a singleton class; or the first argument failure. */
  function ConstructedObject(s: Store, args: Outcome<seq<Value>>, k: Key, singleton: bool): (o: Outcome<Value>)
    requires Extends(s, args.store) && k !in s.bindings
    ensures Extends(s, o.store)
    ensures args.result.Failure? ==> o == Outcome(Failure(args.result.error), args.store)
    ensures args.result.Success? ==>
              && o.result == Success(Object(k.ty, ByConstructor(args.result.value), args.store.serial))
              && Made(s, o.store, o.result.value)
              && o.store.serial == args.store.serial + 1
              && (singleton ==> o.store.bindings == args.store.bindings[k := Cached(o.result.value)])
              && (!singleton ==> o.store.bindings == args.store.bindings)
  {
    if args.result.Failure? then
      Outcome(Failure(args.result.error), args.store)
    else
      var v := Object(k.ty, ByConstructor(args.result.value), args.store.serial);
      var made := args.store.(serial := args.store.serial + 1);
      Bump(s, args.store);
      if singleton then
        CacheMade(s, made, k, v);
        Outcome(Success(v), made.(bindings := made.bindings[k := Cached(v)]))
      else
        Outcome(Success(v), made)
  }

  /** Runs initializer `inits[j]` for a value of type `ty`, unless that initializer is already running. */
  function RunInitializer(refl: Reflection, inits: seq<Initializer>, s: Store, j: nat, ty: TypeName, stack: seq<Frame>): (o: Outcome<Value>)
    requires j < |inits| && Distinct(stack)
    ensures Extends(s, o.store)
    ensures o.result.Failure? ==> stack <= o.result.error.chain
    ensures o.result.Failure? && o.result.error.CircularDependencyEncountered? ==>
              IsCycle(o.result.error.chain)
    ensures o.result.Success? ==>
              && o.result.value.Object? && o.result.value.ty == ty
              && o.result.value.origin.ByInitializer? && o.result.value.origin.initializer == inits[j].name
              && |o.result.value.origin.deps| == |inits[j].deps|
              && Made(s, o.store, o.result.value)
    ensures Initializing(inits[j].name) in stack ==>
              o == Outcome(Failure(CircularDependencyEncountered(stack + [Initializing(inits[j].name)])), s)
    decreases Pending(refl, inits, stack), 2, 1
  {
    if Initializing(inits[j].name) in stack then
      var chain := stack + [Initializing(inits[j].name)];
      assert chain[..|chain| - 1] == stack;
      Outcome(Failure(CircularDependencyEncountered(chain)), s)
    else
      Initialized(refl, inits, s, j, ty, stack)
  }

  /** The initializer requests its dependencies in order, then builds the object from them. */
  function Initialized(refl: Reflection, inits: seq<Initializer>, s: Store, j: nat, ty: TypeName, stack: seq<Frame>): (o: Outcome<Value>)
    requires j < |inits| && Distinct(stack) && Initializing(inits[j].name) !in stack
    ensures Extends(s, o.store)
    ensures o.result.Failure? ==> stack <= o.result.error.chain
    ensures o.result.Failure? && o.result.error.CircularDependencyEncountered? ==>
              IsCycle(o.result.error.chain)
    ensures o.result.Success? ==>
              && o.result.value.Object? && o.result.value.ty == ty
              && o.result.value.origin.ByInitializer? && o.result.value.origin.initializer == inits[j].name
              && |o.result.value.origin.deps| == |inits[j].deps|
              && Made(s, o.store, o.result.value)
    decreases Pending(refl, inits, stack), 2, 0
  {
    var i := inits[j];
    var frames := stack + [Initializing(i.name)];
    PushDistinct(stack, Initializing(i.name));
    InitializerIsFrame(refl, inits, j);
    PushShrinksPending(refl, inits, stack, Initializing(i.name));
    InitializerObject(s, ResolveAll(refl, inits, s, i.deps, frames), ty, i.name)
  }

  /** The initializer's object from its resolved dependencies, or the first dependency failure. */
  function InitializerObject(s: Store, deps: Outcome<seq<Value>>, ty: TypeName, name: InitializerName): (o: Outcome<Value>)
    requires Extends(s, deps.store)
    ensures Extends(s, o.store)
    ensures deps.result.Failure? ==> o == Outcome(Failure(deps.result.error), deps.store)
    ensures deps.result.Success? ==>
              && o.result == Success(Object(ty, ByInitializer(name, deps.result.value), deps.store.serial))
              && Made(s, o.store, o.result.value)
              && o.store == deps.store.(serial := deps.store.serial + 1)
  {
    if deps.result.Failure? then
      Outcome(Failure(deps.result.error), deps.store)
    else
      Bump(s, deps.store);
      Outcome(Success(Object(ty, ByInitializer(name, deps.result.value), deps.store.serial)), deps.store.(serial := deps.store.serial + 1))
  }

  /** Resolves `deps` in order, stopping at the first failure. */
  function ResolveAll(refl: Reflection, inits: seq<Initializer>, s: Store, deps: seq<Key>, stack: seq<Frame>): (o: Outcome<seq<Value>>)
    requires Distinct(stack)
    ensures Extends(s, o.store)
    ensures o.result.Success? ==> |o.result.value| == |deps|
    ensures o.result.Failure? ==> stack <= o.result.error.chain
    ensures o.result.Failure? && o.result.error.CircularDependencyEncountered? ==>
              IsCycle(o.result.error.chain)
    decreases Pending(refl, inits, stack), 1, |deps|
  {
    if |deps| == 0 then Outcome(Success([]), s)
    else
      var first := Resolve(refl, inits, s, deps[0], stack, map[]);
      if first.result.Failure? then
        Outcome(Failure(first.result.error), first.store)
      else
        var rest := ResolveAll(refl, inits, first.store, deps[1..], stack);
        ExtendsTransitive(s, first.store, rest.store);
        if rest.result.Failure? then
          Outcome(Failure(rest.result.error), rest.store)
        else
          Outcome(Success([first.result.value] + rest.result.value), rest.store)
  }

  /** The constructor's arguments, parameter by parameter, stopping at the first failure. */
  function AutowireParams(refl: Reflection, inits: seq<Initializer>, s: Store, params: seq<Param>, stack: seq<Frame>, args: map<string, Value>): (o: Outcome<seq<Value>>)
    requires Distinct(stack)
    ensures Extends(s, o.store)
    ensures o.result.Success? ==> |o.result.value| == |params|
    ensures o.result.Failure? ==> stack <= o.result.error.chain
    ensures o.result.Failure? && o.result.error.CircularDependencyEncountered? ==>
              IsCycle(o.result.error.chain)
    decreases Pending(refl, inits, stack), 4, |params|
  {
    if |params| == 0 then Outcome(Success([]), s)
    else
      var first := AutowireParam(refl, inits, s, params[0], stack, args);
      if first.result.Failure? then
        Outcome(Failure(first.result.error), first.store)
      else
        var rest := AutowireParams(refl, inits, first.store, params[1..], stack, args);
        ExtendsTransitive(s, first.store, rest.store);
        if rest.result.Failure? then
          Outcome(Failure(rest.result.error), rest.store)
        else
          Outcome(Success([first.result.value] + rest.result.value), rest.store)
  }

  /**
   * One constructor parameter. A fitting explicit argument is used as is.
   * A builtin type goes to an initializer registered for it, else null when
   * nullable, else its default, else `[]` for an iterable type, else fails.
   * A class union tries its members in order; when none resolves the
   * parameter gets null when nullable, else its default, else the last
   * member's error.
   */
  function AutowireParam(refl: Reflection, inits: seq<Initializer>, s: Store, p: Param, stack: seq<Frame>, args: map<string, Value>): (o: Outcome<Value>)
    requires Distinct(stack)
    ensures Extends(s, o.store)
    ensures o.result.Failure? ==> stack <= o.result.error.chain
    ensures o.result.Failure? && o.result.error.CircularDependencyEncountered? ==>
              IsCycle(o.result.error.chain)
    decreases Pending(refl, inits, stack), 3, 0
  {
    if p.name in args && Accepts(p.ptype, args[p.name]) then
      Outcome(Success(args[p.name]), s)
    else
      match p.ptype
      case Builtin(name, iterable) =>
        var j := FindInitializer(inits, Key(name, p.tag));
        if j.Some? then RunInitializer(refl, inits, s, j.value, name, stack)
        else if p.nullable then Outcome(Success(Null), s)
        else if p.default.Some? then Outcome(Success(p.default.value), s)
        else if iterable then Outcome(Success(EmptyArray), s)
        else Outcome(Failure(DependencyCouldNotBeAutowired(p.name, stack)), s)
      case Classes(members) =>
        var o := TryUnion(refl, inits, s, p, members, stack);
        if o.result.Success? then o
        else if p.nullable then Outcome(Success(Null), o.store)
        else if p.default.Some? then Outcome(Success(p.default.value), o.store)
        else o
  }

  /** Tries the union members in order; the first that resolves wins, else the last one's error stands. */
  function TryUnion(refl: Reflection, inits: seq<Initializer>, s: Store, p: Param, members: seq<TypeName>, stack: seq<Frame>): (o: Outcome<Value>)
    requires Distinct(stack)
    ensures Extends(s, o.store)
    ensures o.result.Failure? ==> stack <= o.result.error.chain
    ensures o.result.Failure? && o.result.error.CircularDependencyEncountered? ==>
              IsCycle(o.result.error.chain)
    decreases Pending(refl, inits, stack), 1, |members|
  {
    if |members| == 0 then
      Outcome(Failure(DependencyCouldNotBeAutowired(p.name, stack)), s)
    else
      var first := Resolve(refl, inits, s, Key(members[0], p.tag), stack, map[]);
      if first.result.Success? || |members| == 1 then first
      else
        var rest := TryUnion(refl, inits, first.store, p, members[1..], stack);
        ExtendsTransitive(s, first.store, rest.store);
        rest
  }

  /** The container's answer to `get`: the result and the container afterwards. */
  datatype Response<+T> = Response(result: Result<T, ResolveError>, container: Container)

  /** `get(k.ty, k.tag, ...args)` on container `c`. */
  function Get(refl: Reflection, c: Container, k: Key, args: map<string, Value>): (r: Response<Value>)
    ensures r.container.initializers == c.initializers
    ensures Extends(c.store, r.container.store)
    ensures r.result.Failure? && r.result.error.CircularDependencyEncountered? ==>
              IsCycle(r.result.error.chain)
    ensures WellSerialled(c.store) ==> WellSerialled(r.container.store)
  {
    var o := Resolve(refl, c.initializers, c.store, k, [], args);
    if WellSerialled(c.store) then
      ExtendsKeepsWellSerialled(c.store, o.store);
      Response(o.result, c.(store := o.store))
    else
      Response(o.result, c.(store := o.store))
  }

  /** `invoke` on a callable whose parameters are `signature`: the arguments the container resolves for it. */
  function InvokeArguments(refl: Reflection, c: Container, signature: seq<Param>, args: map<string, Value>): (r: Response<seq<Value>>)
    ensures r.container.initializers == c.initializers
    ensures Extends(c.store, r.container.store)
    ensures r.result.Success? ==> |r.result.value| == |signature|
  {
    var o := AutowireParams(refl, c.initializers, c.store, signature, [], args);
    Response(o.result, c.(store := o.store))
  }
}
