/**
 * What the container promises its users, stated over every container and
 * every class table: binding and caching, tagged keys, unregistering,
 * autowiring fallbacks and the resolution errors.
 */
module ContainerProperties {
  import opened Wrappers
  import opened Registry
  import opened Resolver

  /** Nothing can produce `k`: it is unbound and no initializer lists it. */
  predicate Unprovided(c: Container, k: Key) {
    k !in c.store.bindings && FindInitializer(c.initializers, k).None?
  }

  /** After `register(k, f)`, `get(k)` returns a new object made by `f`, and bindings stay as they were. */
  lemma RegisterThenGet(refl: Reflection, c: Container, k: Key, f: FactoryId, args: map<string, Value>)
    ensures var c1 := Register(c, k, f);
            var r := Get(refl, c1, k, args);
            && r.result == Success(Object(k.ty, ByFactory(f), c.store.serial))
            && r.container.store.bindings == c1.store.bindings
            && r.container.store.serial == c.store.serial + 1
  {
    var c1 := Register(c, k, f);
    assert c1.store.bindings[k] == Factory(f);
    assert Resolve(refl, c1.initializers, c1.store, k, [], args) == FromBinding(c1.store, k);
  }

  /** A plain factory runs on every request: two `get`s give two different instances. */
  lemma FactoryGivesFreshInstances(refl: Reflection, c: Container, k: Key, f: FactoryId, args: map<string, Value>)
    requires Lookup(c, k) == Some(Factory(f))
    ensures var r1 := Get(refl, c, k, args);
            var r2 := Get(refl, r1.container, k, args);
            && r1.result.Success? && r2.result.Success?
            && r1.result.value != r2.result.value
  {
    var r1 := Get(refl, c, k, args);
    assert Resolve(refl, c.initializers, c.store, k, [], args) == FromBinding(c.store, k);
    assert r1.container.store.bindings[k] == Factory(f);
    assert Resolve(refl, c.initializers, r1.container.store, k, [], args) == FromBinding(r1.container.store, k);
  }

  /** A cached instance is handed out as is, and the container does not change. */
  lemma CachedIsStable(refl: Reflection, c: Container, k: Key, v: Value, args: map<string, Value>)
    requires Lookup(c, k) == Some(Cached(v))
    ensures Get(refl, c, k, args) == Response(Success(v), c)
  {
    assert Resolve(refl, c.initializers, c.store, k, [], args) == FromBinding(c.store, k);
  }

  /**
   * Whatever kept `k` — a singleton binding, a singleton initializer, or the
   * singleton attribute on its class — a second `get(k)` returns the very
   * instance the first one made, and changes nothing: the maker ran once.
   */
  lemma MemoizedGetIsStable(refl: Reflection, c: Container, k: Key, args: map<string, Value>)
    requires Memoized(refl, c.initializers, c.store, k)
    ensures var r1 := Get(refl, c, k, args);
            r1.result.Success? ==> Get(refl, r1.container, k, args) == r1
  {
    var r1 := Get(refl, c, k, args);
    if r1.result.Success? {
      assert Lookup(r1.container, k) == Some(Cached(r1.result.value));
      CachedIsStable(refl, r1.container, k, r1.result.value, args);
    }
  }

  /** `singleton(k, closure)`: the first `get` runs the closure, the second returns the same instance without running it again. */
  lemma SingletonRunsOnce(refl: Reflection, c: Container, ty: TypeName, f: FactoryId, tag: Option<Tag>, args: map<string, Value>)
    ensures var c1 := Singleton(c, ty, Closure(f), tag);
            var k := Key(ty, tag);
            var r1 := Get(refl, c1, k, args);
            var r2 := Get(refl, r1.container, k, args);
            && r1.result == Success(Object(ty, ByFactory(f), c.store.serial))
            && r2 == r1
  {
    var c1 := Singleton(c, ty, Closure(f), tag);
    var k := Key(ty, tag);
    assert SingletonKey(ty, Closure(f), tag) == k;
    assert c1.store.bindings[k] == SingletonFactory(f);
    assert Resolve(refl, c1.initializers, c1.store, k, [], args) == FromBinding(c1.store, k);
    assert Memoized(refl, c1.initializers, c1.store, k);
    MemoizedGetIsStable(refl, c1, k, args);
  }

  /**
   * Two singletons of one type under two different tags coexist: each tag
   * resolves to its own instance, whether the tags are strings or enum cases.
   */
  lemma TaggedSingletonsCoexist(refl: Reflection, c: Container, ty: TypeName, v1: Value, v2: Value, t1: Tag, t2: Tag, args: map<string, Value>)
    requires t1 != t2
    ensures var c2 := Singleton(Singleton(c, ty, Instance(v1, None), Some(t1)), ty, Instance(v2, None), Some(t2));
            && Get(refl, c2, Key(ty, Some(t1)), args).result == Success(v1)
            && Get(refl, c2, Key(ty, Some(t2)), args).result == Success(v2)
  {
    var c1 := Singleton(c, ty, Instance(v1, None), Some(t1));
    var c2 := Singleton(c1, ty, Instance(v2, None), Some(t2));
    assert SingletonKey(ty, Instance(v1, None), Some(t1)) == Key(ty, Some(t1));
    assert SingletonKey(ty, Instance(v2, None), Some(t2)) == Key(ty, Some(t2));
    assert Lookup(c2, Key(ty, Some(t1))) == Lookup(c1, Key(ty, Some(t1))) == Some(Cached(v1));
    CachedIsStable(refl, c2, Key(ty, Some(t1)), v1, args);
    CachedIsStable(refl, c2, Key(ty, Some(t2)), v2, args);
  }

  /**
   * Singleton instances that carry their own tags, given without an
   * explicit tag, are kept under those tags and each resolves to itself.
   */
  lemma OwnTaggedInstancesCoexist(refl: Reflection, c: Container, ty: TypeName, v1: Value, v2: Value, t1: Tag, t2: Tag, args: map<string, Value>)
    requires t1 != t2
    ensures var c2 := Singleton(Singleton(c, ty, Instance(v1, Some(t1)), None), ty, Instance(v2, Some(t2)), None);
            && Get(refl, c2, Key(ty, Some(t1)), args).result == Success(v1)
            && Get(refl, c2, Key(ty, Some(t2)), args).result == Success(v2)
  {
    var c1 := Singleton(c, ty, Instance(v1, Some(t1)), None);
    var c2 := Singleton(c1, ty, Instance(v2, Some(t2)), None);
    assert SingletonKey(ty, Instance(v1, Some(t1)), None) == Key(ty, Some(t1));
    assert SingletonKey(ty, Instance(v2, Some(t2)), None) == Key(ty, Some(t2));
    assert Lookup(c2, Key(ty, Some(t1))) == Lookup(c1, Key(ty, Some(t1))) == Some(Cached(v1));
    CachedIsStable(refl, c2, Key(ty, Some(t1)), v1, args);
    CachedIsStable(refl, c2, Key(ty, Some(t2)), v2, args);
  }

  /**
   * An unbound key that an initializer can produce is made by the first such
   * initializer, and is of the requested type; one initializer may produce
   * several types.
   */
  lemma InitializedObject(refl: Reflection, c: Container, k: Key, args: map<string, Value>)
    requires k !in c.store.bindings && FindInitializer(c.initializers, k).Some?
    ensures var r := Get(refl, c, k, args);
            var j := FindInitializer(c.initializers, k).value;
            r.result.Success? ==>
              && r.result.value.Object? && r.result.value.ty == k.ty
              && r.result.value.origin.ByInitializer? && r.result.value.origin.initializer == c.initializers[j].name
  {
    var j := FindInitializer(c.initializers, k).value;
    assert Resolve(refl, c.initializers, c.store, k, [], args) == Build(refl, c.initializers, c.store, k, [], args);
    assert Build(refl, c.initializers, c.store, k, [], args) == Initialize(refl, c.initializers, c.store, k, j, []);
  }

  /**
   * An unbound class that no initializer produces is autowired: the result
   * is a new object of that class built from one argument per constructor
   * parameter.
   */
  lemma AutowiredObject(refl: Reflection, c: Container, ty: TypeName, args: map<string, Value>)
    requires Unprovided(c, Key(ty, None)) && ty in refl
    ensures var r := Get(refl, c, Key(ty, None), args);
            r.result.Success? ==>
              && r.result.value.Object? && r.result.value.ty == ty
              && r.result.value.origin.ByConstructor? && |r.result.value.origin.args| == |refl[ty].params|
  {
    var k := Key(ty, None);
    assert Resolve(refl, c.initializers, c.store, k, [], args) == Build(refl, c.initializers, c.store, k, [], args);
    if refl[ty].instantiable {
      assert Build(refl, c.initializers, c.store, k, [], args) == Autowire(refl, c.initializers, c.store, k, [], args);
    }
  }

  /** `get(T, tag)` with nothing bound to or producing that tagged key fails as a tagged dependency, and caches nothing. */
  lemma TaggedUnresolved(refl: Reflection, c: Container, k: Key, args: map<string, Value>)
    requires k.tag.Some? && Unprovided(c, k)
    ensures Get(refl, c, k, args) == Response(Failure(TaggedDependencyCouldNotBeResolved(k, [Resolving(k)])), c)
  {
    assert [] + [Resolving(k)] == [Resolving(k)];
    assert Resolve(refl, c.initializers, c.store, k, [], args) == Build(refl, c.initializers, c.store, k, [], args);
  }

  /**
   * A failure while building a constructor's only, required, class-typed
   * argument is the failure of building the class itself.
   */
  lemma ConstructorFailurePropagates(refl: Reflection, c: Container, t: TypeName, p: Param, stack: seq<Frame>)
    requires t in refl && refl[t].instantiable && refl[t].params == [p]
    requires Unprovided(c, Key(t, None))
    requires p.ptype.Classes? && |p.ptype.members| == 1 && !p.nullable && p.default.None?
    requires Distinct(stack) && Resolving(Key(t, None)) !in stack && Distinct(stack + [Resolving(Key(t, None))])
    ensures var inner := Resolve(refl, c.initializers, c.store, Key(p.ptype.members[0], p.tag), stack + [Resolving(Key(t, None))], map[]);
            inner.result.Failure? ==> Resolve(refl, c.initializers, c.store, Key(t, None), stack, map[]).result == inner.result
  {
    var inits, s := c.initializers, c.store;
    var k := Key(t, None);
    var st := stack + [Resolving(k)];
    var inner := Resolve(refl, inits, s, Key(p.ptype.members[0], p.tag), st, map[]);
    if inner.result.Failure? {
      assert TryUnion(refl, inits, s, p, p.ptype.members, st) == inner;
      assert AutowireParam(refl, inits, s, p, st, map[]) == inner;
      assert AutowireParams(refl, inits, s, [p], st, map[]).result == Failure(inner.result.error);
      assert Autowire(refl, inits, s, k, stack, map[]).result == inner.result;
      assert Build(refl, inits, s, k, stack, map[]).result == inner.result;
    }
  }

  /** A frame pushed onto a repeat-free stack was not on it. */
  lemma PoppedDistinct(stack: seq<Frame>, f: Frame)
    requires Distinct(stack + [f])
    ensures Distinct(stack) && f !in stack
  {
    var x := stack + [f];
    forall i | 0 <= i < |stack|
      ensures stack[i] != f
    {
      assert x[i] == stack[i] && x[|stack|] == f;
    }
    forall i, j | 0 <= i < j < |stack|
      ensures stack[i] != stack[j]
    {
      assert x[i] == stack[i] && x[j] == stack[j];
    }
  }

  /**
   * A failure while an initializer requests its only dependency is the
   * failure of resolving the key that initializer was chosen for.
   */
  lemma InitializerFailurePropagates(refl: Reflection, c: Container, k: Key, j: nat, d: Key, stack: seq<Frame>)
    requires k !in c.store.bindings && FindInitializer(c.initializers, k) == Some(j)
    requires j < |c.initializers| && c.initializers[j].deps == [d]
    requires Distinct(stack) && Distinct(stack + [Resolving(k), Initializing(c.initializers[j].name)])
    ensures var inner := Resolve(refl, c.initializers, c.store, d, stack + [Resolving(k), Initializing(c.initializers[j].name)], map[]);
            inner.result.Failure? ==> Resolve(refl, c.initializers, c.store, k, stack, map[]).result == inner.result
  {
    var inits, s := c.initializers, c.store;
    var f := Initializing(inits[j].name);
    var st := stack + [Resolving(k)];
    assert st + [f] == stack + [Resolving(k), f];
    PoppedDistinct(st, f);
    PoppedDistinct(stack, Resolving(k));
    var inner := Resolve(refl, inits, s, d, st + [f], map[]);
    if inner.result.Failure? {
      assert ResolveAll(refl, inits, s, [d], st + [f]).result == Failure(inner.result.error);
      assert RunInitializer(refl, inits, s, j, k.ty, st).result == inner.result;
      assert Initialize(refl, inits, s, k, j, stack).result == inner.result;
      assert Build(refl, inits, s, k, stack, map[]).result == inner.result;
    }
  }

  /**
   * The tagged failure also surfaces when the tagged key is a constructor
   * parameter: the chain names the class being built, then the tagged key.
   */
  lemma TaggedUnresolvedThroughAutowiring(refl: Reflection, c: Container, d: TypeName, p: Param, dep: TypeName)
    requires d in refl && refl[d].instantiable && refl[d].params == [p]
    requires Unprovided(c, Key(d, None))
    requires p.ptype == Classes([dep]) && p.tag.Some? && !p.nullable && p.default.None?
    requires Unprovided(c, Key(dep, p.tag))
    ensures var kd := Key(d, None);
            var kt := Key(dep, p.tag);
            Get(refl, c, kd, map[]).result == Failure(TaggedDependencyCouldNotBeResolved(kt, [Resolving(kd), Resolving(kt)]))
  {
    var inits, s := c.initializers, c.store;
    var kd := Key(d, None);
    var kt := Key(dep, p.tag);
    var stack := [Resolving(kd)];
    assert [] + [Resolving(kd)] == stack;
    assert stack + [Resolving(kt)] == [Resolving(kd), Resolving(kt)];
    assert Build(refl, inits, s, kt, stack, map[]).result == Failure(TaggedDependencyCouldNotBeResolved(kt, [Resolving(kd), Resolving(kt)]));
    ConstructorFailurePropagates(refl, c, d, p, []);
  }

  /**
   * After `unregister(T)` of an interface with no initializer, `get(T)`
   * fails as not instantiable: the binding and any cached singleton are gone.
   */
  lemma UnregisterThenGet(refl: Reflection, c: Container, ty: TypeName, tagged: bool, args: map<string, Value>)
    requires ty !in refl && FindInitializer(c.initializers, Key(ty, None)).None?
    ensures var r := Get(refl, Unregister(c, ty, tagged), Key(ty, None), args);
            r.result == Failure(DependencyCouldNotBeInstantiated(ty, [Resolving(Key(ty, None))]))
  {
    var c1 := Unregister(c, ty, tagged);
    var k := Key(ty, None);
    assert !Has(c1, k);
    assert [] + [Resolving(k)] == [Resolving(k)];
    assert Resolve(refl, c1.initializers, c1.store, k, [], args) == Build(refl, c1.initializers, c1.store, k, [], args);
  }

  /** With `tagged`, unregistering also makes every tagged key of the type resolve as unbound. */
  lemma UnregisterTaggedThenGet(refl: Reflection, c: Container, ty: TypeName, t: Tag, args: map<string, Value>)
    requires FindInitializer(c.initializers, Key(ty, Some(t))).None?
    ensures var k := Key(ty, Some(t));
            Get(refl, Unregister(c, ty, true), k, args).result == Failure(TaggedDependencyCouldNotBeResolved(k, [Resolving(k)]))
  {
    var c1 := Unregister(c, ty, true);
    var k := Key(ty, Some(t));
    assert !Has(c1, k);
    TaggedUnresolved(refl, c1, k, args);
  }

  /** A class whose constructor asks for the class itself fails as circular, with the chain [A, A]. */
  lemma SelfDependencyIsCircular(refl: Reflection, c: Container, a: TypeName, p: Param)
    requires a in refl && refl[a].instantiable && refl[a].params == [p]
    requires Unprovided(c, Key(a, None))
    requires p.ptype == Classes([a]) && p.tag.None? && !p.nullable && p.default.None?
    ensures var ka := Key(a, None);
            Get(refl, c, ka, map[]).result == Failure(CircularDependencyEncountered([Resolving(ka), Resolving(ka)]))
  {
    var ka := Key(a, None);
    assert [] + [Resolving(ka)] == [Resolving(ka)];
    assert [Resolving(ka)] + [Resolving(ka)] == [Resolving(ka), Resolving(ka)];
    ConstructorFailurePropagates(refl, c, a, p, []);
  }

  /** The frames in flight when the cycle through an initializer closes, and the chain it reports. */
  function CycleChain(a: TypeName, b: TypeName, cc: TypeName, bi: Initializer): (chain: seq<Frame>)
    ensures |chain| == 5 && chain[0] == chain[4] == Resolving(Key(a, None))
  {
    [Resolving(Key(a, None)), Resolving(Key(b, None)), Initializing(bi.name), Resolving(Key(cc, None)), Resolving(Key(a, None))]
  }

  /**
   * A cycle through an initializer: A's constructor needs B, B is made by
   * initializer BI which asks for C, and C's constructor needs A. The chain
   * names every type and the initializer, in the order they were entered.
   */
  lemma CycleThroughInitializer(refl: Reflection, c: Container, a: TypeName, b: TypeName, cc: TypeName, bi: Initializer, pa: Param, pc: Param)
    requires c.initializers == [bi] && bi.produces == {Key(b, None)} && bi.deps == [Key(cc, None)]
    requires a != b && b != cc && cc != a
    requires c.store.bindings == map[]
    requires a in refl && refl[a].instantiable && refl[a].params == [pa]
    requires cc in refl && refl[cc].instantiable && refl[cc].params == [pc]
    requires pa == Param("b", Classes([b]), false, None, None)
    requires pc == Param("a", Classes([a]), false, None, None)
    ensures Get(refl, c, Key(a, None), map[]).result
            == Failure(CircularDependencyEncountered([Resolving(Key(a, None)), Resolving(Key(b, None)), Initializing(bi.name), Resolving(Key(cc, None)), Resolving(Key(a, None))]))
  {
    var ka := Key(a, None);
    var s1 := [Resolving(ka)];
    CycleReachesB(refl, c, a, b, cc, bi, pc);
    assert [] + [Resolving(ka)] == s1;
    assert FindInitializer(c.initializers, ka).None?;
    ConstructorFailurePropagates(refl, c, a, pa, []);
  }

  /** B, requested by A's constructor, goes through BI to C and back to A. */
  lemma CycleReachesB(refl: Reflection, c: Container, a: TypeName, b: TypeName, cc: TypeName, bi: Initializer, pc: Param)
    requires c.initializers == [bi] && bi.produces == {Key(b, None)} && bi.deps == [Key(cc, None)]
    requires a != b && b != cc && cc != a
    requires c.store.bindings == map[]
    requires cc in refl && refl[cc].instantiable && refl[cc].params == [pc]
    requires pc == Param("a", Classes([a]), false, None, None)
    ensures Resolve(refl, c.initializers, c.store, Key(b, None), [Resolving(Key(a, None))], map[]).result
            == Failure(CircularDependencyEncountered(CycleChain(a, b, cc, bi)))
  {
    var kb, kc := Key(b, None), Key(cc, None);
    var s1 := [Resolving(Key(a, None))];
    var s3 := [Resolving(Key(a, None)), Resolving(kb), Initializing(bi.name)];
    CycleReachesC(refl, c, a, b, cc, bi, pc);
    assert s1 + [Resolving(kb), Initializing(bi.name)] == s3;
    assert FindInitializer(c.initializers, kb) == Some(0);
    assert Distinct(s3);
    InitializerFailurePropagates(refl, c, kb, 0, kc, s1);
  }

  /** C, requested by BI, needs A, which is still in flight. */
  lemma CycleReachesC(refl: Reflection, c: Container, a: TypeName, b: TypeName, cc: TypeName, bi: Initializer, pc: Param)
    requires c.initializers == [bi] && bi.produces == {Key(b, None)}
    requires a != b && b != cc && cc != a
    requires c.store.bindings == map[]
    requires cc in refl && refl[cc].instantiable && refl[cc].params == [pc]
    requires pc == Param("a", Classes([a]), false, None, None)
    ensures Resolve(refl, c.initializers, c.store, Key(cc, None), [Resolving(Key(a, None)), Resolving(Key(b, None)), Initializing(bi.name)], map[]).result
            == Failure(CircularDependencyEncountered(CycleChain(a, b, cc, bi)))
  {
    var ka, kc := Key(a, None), Key(cc, None);
    var s3 := [Resolving(ka), Resolving(Key(b, None)), Initializing(bi.name)];
    var s4 := s3 + [Resolving(kc)];
    var chain := CycleChain(a, b, cc, bi);
    assert s4 + [Resolving(ka)] == chain;
    assert Distinct(s4);
    assert FindInitializer(c.initializers, kc).None?;
    assert Resolve(refl, c.initializers, c.store, ka, s4, map[]).result == Failure(CircularDependencyEncountered(chain));
    ConstructorFailurePropagates(refl, c, cc, pc, s3);
  }

  /** An explicitly supplied argument that fits the parameter's type wins over every other source. */
  lemma ExplicitArgumentWins(refl: Reflection, inits: seq<Initializer>, s: Store, p: Param, stack: seq<Frame>, args: map<string, Value>)
    requires Distinct(stack)
    requires p.name in args && Accepts(p.ptype, args[p.name])
    ensures AutowireParam(refl, inits, s, p, stack, args) == Outcome(Success(args[p.name]), s)
  {
  }

  /**
   * A builtin parameter with no fitting argument and no initializer for its
   * type: null when nullable, else its default, else `[]` when iterable,
   * else the parameter cannot be autowired. The store is left alone.
   */
  lemma BuiltinFallbacks(refl: Reflection, inits: seq<Initializer>, s: Store, p: Param, stack: seq<Frame>, args: map<string, Value>)
    requires Distinct(stack)
    requires !(p.name in args && Accepts(p.ptype, args[p.name]))
    requires p.ptype.Builtin? && FindInitializer(inits, Key(p.ptype.name, p.tag)).None?
    ensures var o := AutowireParam(refl, inits, s, p, stack, args);
            && o.store == s
            && (p.nullable ==> o.result == Success(Null))
            && (!p.nullable && p.default.Some? ==> o.result == Success(p.default.value))
            && (!p.nullable && p.default.None? && p.ptype.iterable ==> o.result == Success(EmptyArray))
            && (!p.nullable && p.default.None? && !p.ptype.iterable ==>
                  o.result == Failure(DependencyCouldNotBeAutowired(p.name, stack)))
  {
  }

  /** A builtin parameter with an initializer for its type gets what that initializer makes, before any fallback. */
  lemma BuiltinInitializerWins(refl: Reflection, inits: seq<Initializer>, s: Store, p: Param, stack: seq<Frame>, args: map<string, Value>)
    requires Distinct(stack)
    requires !(p.name in args && Accepts(p.ptype, args[p.name]))
    requires p.ptype.Builtin? && FindInitializer(inits, Key(p.ptype.name, p.tag)).Some?
    ensures AutowireParam(refl, inits, s, p, stack, args)
            == RunInitializer(refl, inits, s, FindInitializer(inits, Key(p.ptype.name, p.tag)).value, p.ptype.name, stack)
  {
  }

  /** The first union member that resolves is taken. */
  lemma UnionTakesFirstResolving(refl: Reflection, inits: seq<Initializer>, s: Store, p: Param, members: seq<TypeName>, stack: seq<Frame>)
    requires Distinct(stack) && |members| > 0
    requires Resolve(refl, inits, s, Key(members[0], p.tag), stack, map[]).result.Success?
    ensures TryUnion(refl, inits, s, p, members, stack) == Resolve(refl, inits, s, Key(members[0], p.tag), stack, map[])
  {
  }

  /**
   * A union member that is an uninstantiable type nothing provides is
   * skipped without effect: the union resolves as if it were absent.
   */
  lemma UnionSkipsUnprovided(refl: Reflection, c: Container, p: Param, members: seq<TypeName>, stack: seq<Frame>)
    requires Distinct(stack) && |members| > 1 && p.tag.None?
    requires members[0] !in refl && Unprovided(c, Key(members[0], None)) && Resolving(Key(members[0], None)) !in stack
    ensures TryUnion(refl, c.initializers, c.store, p, members, stack) == TryUnion(refl, c.initializers, c.store, p, members[1..], stack)
  {
    var k := Key(members[0], None);
    var frames := stack + [Resolving(k)];
    assert Build(refl, c.initializers, c.store, k, stack, map[]) == Outcome(Failure(DependencyCouldNotBeInstantiated(members[0], frames)), c.store);
    assert Resolve(refl, c.initializers, c.store, k, stack, map[]).result.Failure?;
  }

  /**
   * A class-union parameter none of whose members resolves: null when
   * nullable, else the default, else the failure of the last member tried.
   */
  lemma UnionFallbacks(refl: Reflection, inits: seq<Initializer>, s: Store, p: Param, stack: seq<Frame>, args: map<string, Value>)
    requires Distinct(stack)
    requires !(p.name in args && Accepts(p.ptype, args[p.name]))
    requires p.ptype.Classes? && TryUnion(refl, inits, s, p, p.ptype.members, stack).result.Failure?
    ensures var u := TryUnion(refl, inits, s, p, p.ptype.members, stack);
            var o := AutowireParam(refl, inits, s, p, stack, args);
            && o.store == u.store
            && (p.nullable ==> o.result == Success(Null))
            && (!p.nullable && p.default.Some? ==> o.result == Success(p.default.value))
            && (!p.nullable && p.default.None? ==> o.result == u.result)
  {
  }

  /** A class with a nullable parameter of a type nothing provides is built with null for it. */
  lemma OptionalClassParameterIsNull(refl: Reflection, c: Container, d: TypeName, p: Param, dep: TypeName)
    requires d in refl && refl[d].instantiable && refl[d].params == [p] && !refl[d].singleton
    requires Unprovided(c, Key(d, None))
    requires p.ptype == Classes([dep]) && p.tag.None? && p.nullable
    requires dep != d && dep !in refl && Unprovided(c, Key(dep, None))
    ensures var r := Get(refl, c, Key(d, None), map[]);
            r.result == Success(Object(d, ByConstructor([Null]), c.store.serial))
  {
    var inits, s := c.initializers, c.store;
    var kd := Key(d, None);
    var kt := Key(dep, None);
    var stack := [Resolving(kd)];
    assert [] + [Resolving(kd)] == stack;
    var e := DependencyCouldNotBeInstantiated(dep, stack + [Resolving(kt)]);
    assert Build(refl, inits, s, kt, stack, map[]) == Outcome(Failure(e), s);
    assert Resolve(refl, inits, s, kt, stack, map[]) == Outcome(Failure(e), s);
    assert TryUnion(refl, inits, s, p, [dep], stack) == Outcome(Failure(e), s);
    assert AutowireParam(refl, inits, s, p, stack, map[]) == Outcome(Success(Null), s);
    assert [p][1..] == [];
    assert [Null] + [] == [Null];
    assert AutowireParams(refl, inits, s, [p], stack, map[]) == Outcome(Success([Null]), s);
    assert Autowire(refl, inits, s, kd, [], map[]).result == Success(Object(d, ByConstructor([Null]), s.serial));
    assert Build(refl, inits, s, kd, [], map[]).result == Success(Object(d, ByConstructor([Null]), s.serial));
    assert Resolve(refl, inits, s, kd, [], map[]).result == Success(Object(d, ByConstructor([Null]), s.serial));
  }

  /** `invoke` on a callable with a required builtin parameter nothing can supply fails as not autowirable. */
  lemma InvokeUnresolvableBuiltin(refl: Reflection, c: Container, p: Param)
    requires p.ptype.Builtin? && !p.ptype.iterable && !p.nullable && p.default.None?
    requires FindInitializer(c.initializers, Key(p.ptype.name, p.tag)).None?
    ensures InvokeArguments(refl, c, [p], map[]).result == Failure(DependencyCouldNotBeAutowired(p.name, []))
  {
    var o := AutowireParam(refl, c.initializers, c.store, p, [], map[]);
    BuiltinFallbacks(refl, c.initializers, c.store, p, [], map[]);
    assert o.result == Failure(DependencyCouldNotBeAutowired(p.name, []));
  }

  /**
   * `ResolveAll` works through the dependencies in order: the i-th value is
   * what resolving the i-th key gives in the store the earlier ones left,
   * and the first failure ends the walk, with nothing after it resolved.
   */
  lemma ResolveAllStep(refl: Reflection, inits: seq<Initializer>, s: Store, deps: seq<Key>, stack: seq<Frame>, i: nat)
    requires Distinct(stack) && i < |deps|
    ensures var whole := ResolveAll(refl, inits, s, deps, stack);
            var pre := ResolveAll(refl, inits, s, deps[..i], stack);
            var step := Resolve(refl, inits, pre.store, deps[i], stack, map[]);
            && (whole.result.Success? ==> pre.result.Success? && step.result.Success? && whole.result.value[i] == step.result.value)
            && (pre.result.Success? && step.result.Failure? ==> whole == Outcome(Failure(step.result.error), step.store))
  {
    ResolveAllStepSuccess(refl, inits, s, deps, stack, i);
    ResolveAllStepFailure(refl, inits, s, deps, stack, i);
  }

  lemma {:induction false} ResolveAllStepSuccess(refl: Reflection, inits: seq<Initializer>, s: Store, deps: seq<Key>, stack: seq<Frame>, i: nat)
    requires Distinct(stack) && i < |deps|
    ensures var whole := ResolveAll(refl, inits, s, deps, stack);
            var pre := ResolveAll(refl, inits, s, deps[..i], stack);
            var step := Resolve(refl, inits, pre.store, deps[i], stack, map[]);
            whole.result.Success? ==> pre.result.Success? && step.result.Success? && whole.result.value[i] == step.result.value
    decreases i
  {
    if i > 0 {
      var first := Resolve(refl, inits, s, deps[0], stack, map[]);
      ResolveAllUnfold(refl, inits, s, deps, stack);
      ResolveAllUnfold(refl, inits, s, deps[..i], stack);
      if first.result.Success? {
        var tail := deps[1..];
        assert deps[..i][0] == deps[0];
        assert deps[..i][1..] == tail[..i - 1];
        assert tail[i - 1] == deps[i];
        ResolveAllStepSuccess(refl, inits, first.store, tail, stack, i - 1);
      }
    } else {
      assert deps[..0] == [];
    }
  }

  lemma {:induction false} ResolveAllStepFailure(refl: Reflection, inits: seq<Initializer>, s: Store, deps: seq<Key>, stack: seq<Frame>, i: nat)
    requires Distinct(stack) && i < |deps|
    ensures var whole := ResolveAll(refl, inits, s, deps, stack);
            var pre := ResolveAll(refl, inits, s, deps[..i], stack);
            var step := Resolve(refl, inits, pre.store, deps[i], stack, map[]);
            pre.result.Success? && step.result.Failure? ==> whole == Outcome(Failure(step.result.error), step.store)
    decreases i
  {
    if i > 0 {
      var first := Resolve(refl, inits, s, deps[0], stack, map[]);
      ResolveAllUnfold(refl, inits, s, deps, stack);
      ResolveAllUnfold(refl, inits, s, deps[..i], stack);
      if first.result.Success? {
        var tail := deps[1..];
        assert deps[..i][0] == deps[0];
        assert deps[..i][1..] == tail[..i - 1];
        assert tail[i - 1] == deps[i];
        ResolveAllStepFailure(refl, inits, first.store, tail, stack, i - 1);
      }
    } else {
      assert deps[..0] == [];
    }
  }

  /** One step of `ResolveAll`: the first key, then the rest in the store it left, unless it failed. */
  lemma ResolveAllUnfold(refl: Reflection, inits: seq<Initializer>, s: Store, deps: seq<Key>, stack: seq<Frame>)
    requires Distinct(stack) && |deps| > 0
    ensures var first := Resolve(refl, inits, s, deps[0], stack, map[]);
            var rest := ResolveAll(refl, inits, first.store, deps[1..], stack);
            ResolveAll(refl, inits, s, deps, stack) ==
              if first.result.Failure? then Outcome(Failure(first.result.error), first.store)
              else if rest.result.Failure? then Outcome(Failure(rest.result.error), rest.store)
              else Outcome(Success([first.result.value] + rest.result.value), rest.store)
  {
  }

  /**
   * `AutowireParams` works through the parameters in order: the i-th
   * argument is what autowiring the i-th parameter gives in the store the
   * earlier ones left, and the first failure ends the walk.
   */
  lemma AutowireParamsStep(refl: Reflection, inits: seq<Initializer>, s: Store, params: seq<Param>, stack: seq<Frame>, args: map<string, Value>, i: nat)
    requires Distinct(stack) && i < |params|
    ensures var whole := AutowireParams(refl, inits, s, params, stack, args);
            var pre := AutowireParams(refl, inits, s, params[..i], stack, args);
            var step := AutowireParam(refl, inits, pre.store, params[i], stack, args);
            && (whole.result.Success? ==> pre.result.Success? && step.result.Success? && whole.result.value[i] == step.result.value)
            && (pre.result.Success? && step.result.Failure? ==> whole == Outcome(Failure(step.result.error), step.store))
  {
    AutowireParamsStepSuccess(refl, inits, s, params, stack, args, i);
    AutowireParamsStepFailure(refl, inits, s, params, stack, args, i);
  }

  lemma {:induction false} AutowireParamsStepSuccess(refl: Reflection, inits: seq<Initializer>, s: Store, params: seq<Param>, stack: seq<Frame>, args: map<string, Value>, i: nat)
    requires Distinct(stack) && i < |params|
    ensures var whole := AutowireParams(refl, inits, s, params, stack, args);
            var pre := AutowireParams(refl, inits, s, params[..i], stack, args);
            var step := AutowireParam(refl, inits, pre.store, params[i], stack, args);
            whole.result.Success? ==> pre.result.Success? && step.result.Success? && whole.result.value[i] == step.result.value
    decreases i
  {
    if i > 0 {
      var first := AutowireParam(refl, inits, s, params[0], stack, args);
      AutowireParamsUnfold(refl, inits, s, params, stack, args);
      AutowireParamsUnfold(refl, inits, s, params[..i], stack, args);
      if first.result.Success? {
        var tail := params[1..];
        assert params[..i][0] == params[0];
        assert params[..i][1..] == tail[..i - 1];
        assert tail[i - 1] == params[i];
        AutowireParamsStepSuccess(refl, inits, first.store, tail, stack, args, i - 1);
      }
    } else {
      assert params[..0] == [];
    }
  }

  lemma {:induction false} AutowireParamsStepFailure(refl: Reflection, inits: seq<Initializer>, s: Store, params: seq<Param>, stack: seq<Frame>, args: map<string, Value>, i: nat)
    requires Distinct(stack) && i < |params|
    ensures var whole := AutowireParams(refl, inits, s, params, stack, args);
            var pre := AutowireParams(refl, inits, s, params[..i], stack, args);
            var step := AutowireParam(refl, inits, pre.store, params[i], stack, args);
            pre.result.Success? && step.result.Failure? ==> whole == Outcome(Failure(step.result.error), step.store)
    decreases i
  {
    if i > 0 {
      var first := AutowireParam(refl, inits, s, params[0], stack, args);
      AutowireParamsUnfold(refl, inits, s, params, stack, args);
      AutowireParamsUnfold(refl, inits, s, params[..i], stack, args);
      if first.result.Success? {
        var tail := params[1..];
        assert params[..i][0] == params[0];
        assert params[..i][1..] == tail[..i - 1];
        assert tail[i - 1] == params[i];
        AutowireParamsStepFailure(refl, inits, first.store, tail, stack, args, i - 1);
      }
    } else {
      assert params[..0] == [];
    }
  }

  /**
   * An initializer not already running requests its dependencies with
   * itself on the stack: its object holds, in order, what each dependency
   * resolved to, and the first dependency that fails is its failure.
   */
  lemma InitializerDepsResolved(refl: Reflection, inits: seq<Initializer>, s: Store, j: nat, ty: TypeName, stack: seq<Frame>)
    requires j < |inits| && Distinct(stack) && Initializing(inits[j].name) !in stack
    ensures var o := RunInitializer(refl, inits, s, j, ty, stack);
            var st := stack + [Initializing(inits[j].name)];
            var deps := inits[j].deps;
            forall i :: 0 <= i < |deps| ==>
              var pre := ResolveAll(refl, inits, s, deps[..i], st);
              var step := Resolve(refl, inits, pre.store, deps[i], st, map[]);
              && (o.result.Success? ==> step.result.Success? && o.result.value.origin.deps[i] == step.result.value)
              && (pre.result.Success? && step.result.Failure? ==> o.result == step.result)
  {
    var st := stack + [Initializing(inits[j].name)];
    var deps := inits[j].deps;
    PushDistinct(stack, Initializing(inits[j].name));
    var all := ResolveAll(refl, inits, s, deps, st);
    assert RunInitializer(refl, inits, s, j, ty, stack) == InitializerObject(s, all, ty, inits[j].name);
    forall i | 0 <= i < |deps| {
      ResolveAllStep(refl, inits, s, deps, st, i);
    }
  }

  /** Resolving keys that are all bound, and none of them in flight, succeeds; a cached key gives its instance. */
  lemma {:induction false} BoundDepsResolve(refl: Reflection, inits: seq<Initializer>, s: Store, deps: seq<Key>, stack: seq<Frame>)
    requires Distinct(stack)
    requires forall i :: 0 <= i < |deps| ==> deps[i] in s.bindings && Resolving(deps[i]) !in stack
    ensures var o := ResolveAll(refl, inits, s, deps, stack);
            && o.result.Success?
            && forall i :: 0 <= i < |deps| && s.bindings[deps[i]].Cached? ==> o.result.value[i] == s.bindings[deps[i]].instance
    decreases |deps|
  {
    if |deps| > 0 {
      var first := Resolve(refl, inits, s, deps[0], stack, map[]);
      assert first == FromBinding(s, deps[0]);
      var tail := deps[1..];
      forall i | 0 <= i < |tail|
        ensures tail[i] in first.store.bindings && Resolving(tail[i]) !in stack
      {
        assert tail[i] == deps[i + 1];
      }
      BoundDepsResolve(refl, inits, first.store, tail, stack);
      var rest := ResolveAll(refl, inits, first.store, tail, stack);
      var whole := ResolveAll(refl, inits, s, deps, stack);
      assert whole.result.value == [first.result.value] + rest.result.value;
      forall i | 0 <= i < |deps| && s.bindings[deps[i]].Cached?
        ensures whole.result.value[i] == s.bindings[deps[i]].instance
      {
        if i > 0 {
          assert tail[i - 1] == deps[i];
          assert Kept(s, first.store, s.bindings[deps[i]], first.store.bindings[deps[i]]);
        }
      }
    }
  }

  /**
   * An unbound key whose first initializer asks only for bound keys is
   * made by that initializer: `get` succeeds with a new object of the key's
   * type, and each cached dependency is passed as its instance. An
   * initializer with no dependencies is the simplest case.
   */
  lemma InitializerSucceeds(refl: Reflection, c: Container, k: Key, args: map<string, Value>)
    requires k !in c.store.bindings && FindInitializer(c.initializers, k).Some?
    requires forall d :: d in c.initializers[FindInitializer(c.initializers, k).value].deps ==> d in c.store.bindings
    ensures var r := Get(refl, c, k, args);
            var i := c.initializers[FindInitializer(c.initializers, k).value];
            && r.result.Success?
            && r.result.value.Object? && r.result.value.ty == k.ty
            && r.result.value.origin.ByInitializer? && r.result.value.origin.initializer == i.name
            && |r.result.value.origin.deps| == |i.deps|
            && (forall n :: 0 <= n < |i.deps| && c.store.bindings[i.deps[n]].Cached? ==>
                  r.result.value.origin.deps[n] == c.store.bindings[i.deps[n]].instance)
            && Made(c.store, r.container.store, r.result.value)
  {
    var inits, s := c.initializers, c.store;
    var j := FindInitializer(inits, k).value;
    var i := inits[j];
    assert [] + [Resolving(k)] == [Resolving(k)];
    forall d | d in i.deps
      ensures d in s.bindings && Resolving(d) !in [Resolving(k)]
    {
    }
    BoundInitializerRuns(refl, inits, s, j, k.ty, [Resolving(k)]);
    var o := RunInitializer(refl, inits, s, j, k.ty, [Resolving(k)]);
    assert Initialize(refl, inits, s, k, j, []).result == o.result;
    assert Resolve(refl, inits, s, k, [], args) == Build(refl, inits, s, k, [], args) by {
      assert k !in s.bindings;
    }
    assert Build(refl, inits, s, k, [], args) == Initialize(refl, inits, s, k, j, []);
  }

  /** An initializer not running yet, whose dependencies are all bound and none in flight, makes its object. */
  lemma BoundInitializerRuns(refl: Reflection, inits: seq<Initializer>, s: Store, j: nat, ty: TypeName, stack: seq<Frame>)
    requires j < |inits| && Distinct(stack) && Initializing(inits[j].name) !in stack
    requires forall d :: d in inits[j].deps ==> d in s.bindings && Resolving(d) !in stack
    ensures var o := RunInitializer(refl, inits, s, j, ty, stack);
            var deps := inits[j].deps;
            && o.result.Success?
            && (forall n :: 0 <= n < |deps| && s.bindings[deps[n]].Cached? ==>
                  o.result.value.origin.deps[n] == s.bindings[deps[n]].instance)
  {
    var i := inits[j];
    var st := stack + [Initializing(i.name)];
    PushDistinct(stack, Initializing(i.name));
    forall n | 0 <= n < |i.deps|
      ensures i.deps[n] in s.bindings && Resolving(i.deps[n]) !in st
    {
      assert i.deps[n] in i.deps;
    }
    BoundDepsResolve(refl, inits, s, i.deps, st);
    var all := ResolveAll(refl, inits, s, i.deps, st);
    assert RunInitializer(refl, inits, s, j, ty, stack) == InitializerObject(s, all, ty, i.name);
  }

  /** A builtin parameter that no initializer provides but that is nullable, has a default, or is iterable. */
  predicate FallsBack(inits: seq<Initializer>, p: Param) {
    && p.ptype.Builtin?
    && FindInitializer(inits, Key(p.ptype.name, p.tag)).None?
    && (p.nullable || p.default.Some? || p.ptype.iterable)
  }

  /** The value such a parameter gets: null, else the default, else `[]`. */
  function Fallback(p: Param): Value {
    if p.nullable then Null else if p.default.Some? then p.default.value else EmptyArray
  }

  /** The key of a class parameter's first union member. */
  function FirstMemberKey(p: Param): Key
    requires p.ptype.Classes? && |p.ptype.members| > 0
  {
    Key(p.ptype.members[0], p.tag)
  }

  /** A class parameter whose first union member is bound. */
  predicate FirstMemberBound(s: Store, p: Param) {
    p.ptype.Classes? && |p.ptype.members| > 0 && FirstMemberKey(p) in s.bindings
  }

  /** Either kind of parameter above is autowired without fail. */
  lemma ParamSucceeds(refl: Reflection, inits: seq<Initializer>, s: Store, p: Param, stack: seq<Frame>)
    requires Distinct(stack)
    requires FallsBack(inits, p) || (FirstMemberBound(s, p) && Resolving(FirstMemberKey(p)) !in stack)
    ensures var o := AutowireParam(refl, inits, s, p, stack, map[]);
            && o.result.Success?
            && (FallsBack(inits, p) ==> o == Outcome(Success(Fallback(p)), s))
            && (FirstMemberBound(s, p) ==> o == FromBinding(s, FirstMemberKey(p)))
  {
    if FirstMemberBound(s, p) {
      assert Resolve(refl, inits, s, FirstMemberKey(p), stack, map[]) == FromBinding(s, FirstMemberKey(p));
    }
  }

  /** A constructor all of whose parameters are of those kinds gets every argument, each fallback parameter its fallback. */
  lemma {:induction false} ParamsSucceed(refl: Reflection, inits: seq<Initializer>, s: Store, params: seq<Param>, stack: seq<Frame>)
    requires Distinct(stack)
    requires forall i :: 0 <= i < |params| ==>
               FallsBack(inits, params[i]) || (FirstMemberBound(s, params[i]) && Resolving(FirstMemberKey(params[i])) !in stack)
    ensures var o := AutowireParams(refl, inits, s, params, stack, map[]);
            && o.result.Success?
            && (forall i :: 0 <= i < |params| && FallsBack(inits, params[i]) ==> o.result.value[i] == Fallback(params[i]))
    decreases |params|
  {
    if |params| > 0 {
      ParamSucceeds(refl, inits, s, params[0], stack);
      var first := AutowireParam(refl, inits, s, params[0], stack, map[]);
      var tail := params[1..];
      forall i | 0 <= i < |tail|
        ensures FallsBack(inits, tail[i]) || (FirstMemberBound(first.store, tail[i]) && Resolving(FirstMemberKey(tail[i])) !in stack)
      {
        assert tail[i] == params[i + 1];
      }
      ParamsSucceed(refl, inits, first.store, tail, stack);
      var rest := AutowireParams(refl, inits, first.store, tail, stack, map[]);
      AutowireParamsUnfold(refl, inits, s, params, stack, map[]);
      var vs := [first.result.value] + rest.result.value;
      forall i | 0 <= i < |params| && FallsBack(inits, params[i])
        ensures vs[i] == Fallback(params[i])
      {
        if i > 0 {
          assert tail[i - 1] == params[i];
        }
      }
    }
  }

  /** In a successful autowiring, a class parameter whose first member is cached gets that very instance. */
  lemma {:induction false} ParamsKeepCached(refl: Reflection, inits: seq<Initializer>, s: Store, params: seq<Param>, stack: seq<Frame>)
    requires Distinct(stack)
    requires forall i :: 0 <= i < |params| && params[i].ptype.Classes? && |params[i].ptype.members| > 0 ==>
               Resolving(FirstMemberKey(params[i])) !in stack
    ensures var o := AutowireParams(refl, inits, s, params, stack, map[]);
            o.result.Success? ==>
              forall i :: 0 <= i < |params| && FirstMemberBound(s, params[i]) && s.bindings[FirstMemberKey(params[i])].Cached? ==>
                o.result.value[i] == s.bindings[FirstMemberKey(params[i])].instance
    decreases |params|
  {
    if |params| > 0 {
      var first := AutowireParam(refl, inits, s, params[0], stack, map[]);
      if FirstMemberBound(s, params[0]) {
        ParamSucceeds(refl, inits, s, params[0], stack);
      }
      var tail := params[1..];
      forall i | 0 <= i < |tail| && tail[i].ptype.Classes? && |tail[i].ptype.members| > 0
        ensures Resolving(FirstMemberKey(tail[i])) !in stack
      {
        assert tail[i] == params[i + 1];
      }
      ParamsKeepCached(refl, inits, first.store, tail, stack);
      var rest := AutowireParams(refl, inits, first.store, tail, stack, map[]);
      AutowireParamsUnfold(refl, inits, s, params, stack, map[]);
      if first.result.Success? && rest.result.Success? {
        var vs := [first.result.value] + rest.result.value;
        forall i | 0 <= i < |params| && FirstMemberBound(s, params[i]) && s.bindings[FirstMemberKey(params[i])].Cached?
          ensures vs[i] == s.bindings[FirstMemberKey(params[i])].instance
        {
          if i > 0 {
            assert tail[i - 1] == params[i];
            var key := FirstMemberKey(params[i]);
            assert Kept(s, first.store, s.bindings[key], first.store.bindings[key]);
          }
        }
      }
    }
  }

  /** One step of `AutowireParams`: the first parameter, then the rest in the store it left, unless it failed. */
  lemma AutowireParamsUnfold(refl: Reflection, inits: seq<Initializer>, s: Store, params: seq<Param>, stack: seq<Frame>, args: map<string, Value>)
    requires Distinct(stack) && |params| > 0
    ensures var first := AutowireParam(refl, inits, s, params[0], stack, args);
            var rest := AutowireParams(refl, inits, first.store, params[1..], stack, args);
            AutowireParams(refl, inits, s, params, stack, args) ==
              if first.result.Failure? then Outcome(Failure(first.result.error), first.store)
              else if rest.result.Failure? then Outcome(Failure(rest.result.error), rest.store)
              else Outcome(Success([first.result.value] + rest.result.value), rest.store)
  {
  }

  /**
   * An unprovided instantiable class whose every constructor parameter
   * either falls back or names a bound class first is autowired without
   * fail: `get` gives a new object of the class, with each fallback
   * parameter's value and each cached dependency's instance as arguments.
   */
  lemma AutowireSucceeds(refl: Reflection, c: Container, ty: TypeName)
    requires Unprovided(c, Key(ty, None)) && ty in refl && refl[ty].instantiable
    requires forall i :: 0 <= i < |refl[ty].params| ==>
               FallsBack(c.initializers, refl[ty].params[i]) || FirstMemberBound(c.store, refl[ty].params[i])
    ensures var r := Get(refl, c, Key(ty, None), map[]);
            var ps := refl[ty].params;
            && r.result.Success?
            && r.result.value.Object? && r.result.value.ty == ty
            && r.result.value.origin.ByConstructor?
            && |r.result.value.origin.args| == |ps|
            && (forall i :: 0 <= i < |ps| && FallsBack(c.initializers, ps[i]) ==> r.result.value.origin.args[i] == Fallback(ps[i]))
            && (forall i :: 0 <= i < |ps| && FirstMemberBound(c.store, ps[i]) && c.store.bindings[FirstMemberKey(ps[i])].Cached? ==>
                  r.result.value.origin.args[i] == c.store.bindings[FirstMemberKey(ps[i])].instance)
            && Made(c.store, r.container.store, r.result.value)
  {
    var inits, s := c.initializers, c.store;
    var k := Key(ty, None);
    var ps := refl[ty].params;
    var st := [Resolving(k)];
    assert [] + [Resolving(k)] == st;
    forall i | 0 <= i < |ps| && ps[i].ptype.Classes? && |ps[i].ptype.members| > 0
      ensures Resolving(FirstMemberKey(ps[i])) !in st
    {
      assert FirstMemberBound(s, ps[i]);
      assert FirstMemberKey(ps[i]) != k;
    }
    ParamsSucceed(refl, inits, s, ps, st);
    ParamsKeepCached(refl, inits, s, ps, st);
    var all := AutowireParams(refl, inits, s, ps, st, map[]);
    assert Autowire(refl, inits, s, k, [], map[]) == ConstructedObject(s, all, k, refl[ty].singleton);
    assert Resolve(refl, inits, s, k, [], map[]) == Build(refl, inits, s, k, [], map[]);
  }

  /**
   * The container's first autowiring example: B's constructor takes an A,
   * A's takes nothing, nothing is bound. `get(B)` succeeds, and `$b->a` is
   * an A that the container built first.
   */
  lemma GetWithAutowire(refl: Reflection, pa: Param)
    requires pa == Param("a", Classes(["A"]), false, None, None)
    requires refl == map["A" := ClassInfo(true, [], false), "B" := ClassInfo(true, [pa], false)]
    ensures Get(refl, Empty(), Key("B", None), map[]).result
            == Success(Object("B", ByConstructor([Object("A", ByConstructor([]), 0)]), 1))
  {
    var inits, s := Empty().initializers, Empty().store;
    var ka, kb := Key("A", None), Key("B", None);
    var sb := [Resolving(kb)];
    var sab := sb + [Resolving(ka)];
    assert [] + [Resolving(kb)] == sb;
    assert Distinct(sab);
    var a := Object("A", ByConstructor([]), 0);
    var s1 := s.(serial := 1);
    assert AutowireParams(refl, inits, s, [], sab, map[]) == Outcome(Success([]), s);
    assert Autowire(refl, inits, s, ka, sb, map[]) == Outcome(Success(a), s1);
    assert Resolve(refl, inits, s, ka, sb, map[]) == Outcome(Success(a), s1);
    assert AutowireParam(refl, inits, s, pa, sb, map[]) == Outcome(Success(a), s1);
    assert [pa][1..] == [];
    assert [a] + [] == [a];
    assert AutowireParams(refl, inits, s, [pa], sb, map[]) == Outcome(Success([a]), s1);
    assert Autowire(refl, inits, s, kb, [], map[]).result == Success(Object("B", ByConstructor([a]), 1));
    assert Resolve(refl, inits, s, kb, [], map[]).result == Success(Object("B", ByConstructor([a]), 1));
  }

  /** An initializer added last is found for a key no earlier initializer produces. */
  lemma {:induction false} FindInitializerAppend(inits: seq<Initializer>, i: Initializer, k: Key)
    requires FindInitializer(inits, k).None? && k in i.produces
    ensures FindInitializer(inits + [i], k) == Some(|inits|)
    decreases |inits|
  {
    if |inits| == 0 {
      assert inits + [i] == [i];
    } else {
      assert (inits + [i])[0] == inits[0];
      assert (inits + [i])[1..] == inits[1..] + [i];
      FindInitializerAppend(inits[1..], i, k);
    }
  }

  /**
   * `addInitializer(i)`: an unbound key that only `i` produces, and whose
   * dependencies are bound, is then made by `i`, and kept under the key
   * when `i` is a singleton initializer.
   */
  lemma AddInitializerThenGet(refl: Reflection, c: Container, i: Initializer, k: Key, args: map<string, Value>)
    requires k !in c.store.bindings && FindInitializer(c.initializers, k).None? && k in i.produces
    requires forall d :: d in i.deps ==> d in c.store.bindings
    ensures var r := Get(refl, AddInitializer(c, i), k, args);
            && r.result.Success?
            && r.result.value.Object? && r.result.value.ty == k.ty
            && r.result.value.origin.ByInitializer? && r.result.value.origin.initializer == i.name
            && (i.singleton ==> Lookup(r.container, k) == Some(Cached(r.result.value)))
  {
    var c1 := AddInitializer(c, i);
    FindInitializerAppend(c.initializers, i, k);
    assert c1.initializers == c.initializers + [i];
    assert c1.initializers[|c.initializers|] == i;
    InitializerSucceeds(refl, c1, k, args);
  }

  /**
   * A factory's object is new: in a well-serialled container it differs
   * from any value the caller already holds, whether the caller made it or
   * the container handed it out before, and the container stays well-serialled.
   */
  lemma FactoryObjectIsNew(refl: Reflection, c: Container, k: Key, f: FactoryId, args: map<string, Value>, v: Value)
    requires WellSerialled(c.store) && Issued(c.store, v)
    requires Lookup(c, k) == Some(Factory(f)) || Lookup(c, k) == Some(SingletonFactory(f))
    ensures var r := Get(refl, c, k, args);
            && r.result.Success? && r.result.value != v
            && Issued(r.container.store, r.result.value) && Issued(r.container.store, v)
            && WellSerialled(r.container.store)
  {
    assert Resolve(refl, c.initializers, c.store, k, [], args) == FromBinding(c.store, k);
  }
}
