/**
 * The dependency container's state: bindings keyed by (type, tag), the
 * ordered initializers, and the reflection data of the program's classes,
 * with the registry operations `register`, `singleton`, `unregister`,
 * `has` and `addInitializer`.
 */
module Registry {
  import opened Wrappers

  /** A class, interface or builtin type name (`string`, `array`, ...). */
  type TypeName = string

  /** A tag: a string, or a case of an enum. A string tag never equals an enum tag. */
  datatype Tag = StringTag(name: string) | EnumTag(enumName: string, caseName: string)

  /** The key bindings and resolutions use: a type plus an optional tag. No tag differs from every tag. */
  datatype Key = Key(ty: TypeName, tag: Option<Tag>)

  /** Identifies a closure given to `register` or `singleton`. */
  type FactoryId = string

  /** The class name of an initializer. */
  type InitializerName = string

  /** Where an object came from: made by the container, or made by the caller and handed to `singleton`. */
  datatype Origin =
    | ByFactory(factory: FactoryId)
    | ByInitializer(initializer: InitializerName, deps: seq<Value>)
    | ByConstructor(args: seq<Value>)
    | Supplied(id: string)

  /**
   * A value the container hands out. Objects carry the type they were made
   * for and a serial number. Each object the container makes takes the
   * store's next serial, so, in a store that is `WellSerialled`, an object
   * made now differs from every object made or supplied before.
   */
  datatype Value =
    | Null
    | EmptyArray
    | Scalar(scalarType: TypeName, text: string)
    | Object(ty: TypeName, origin: Origin, serial: nat)

  /** What a key is bound to: a factory run on every request, a singleton factory not run yet, or a cached instance. */
  datatype Binding = Factory(factory: FactoryId) | SingletonFactory(factory: FactoryId) | Cached(instance: Value)

  /**
   * An initializer: the keys it can produce, the keys it asks the container
   * for while producing, and whether its result is kept as a singleton.
   */
  datatype Initializer = Initializer(name: InitializerName, produces: set<Key>, deps: seq<Key>, singleton: bool)

  /** A constructor parameter's declared type: one builtin, or a union of class types tried in order. */
  datatype ParamType = Builtin(name: TypeName, iterable: bool) | Classes(members: seq<TypeName>)

  datatype Param = Param(name: string, ptype: ParamType, nullable: bool, default: Option<Value>, tag: Option<Tag>)

  /** Reflection data of a class: can it be instantiated, its constructor's parameters, does it carry the singleton attribute. */
  datatype ClassInfo = ClassInfo(instantiable: bool, params: seq<Param>, singleton: bool)

  /** The program's classes. A type absent from it (an interface, say) cannot be instantiated. */
  type Reflection = map<TypeName, ClassInfo>

  /** The mutable part of the container: its bindings and the next object serial. */
  datatype Store = Store(bindings: map<Key, Binding>, serial: nat)

  datatype Container = Container(store: Store, initializers: seq<Initializer>)

  /** `v` is the caller's own object, or one this store has already handed out. */
  predicate Issued(s: Store, v: Value) {
    v.Object? && !v.origin.Supplied? ==> v.serial < s.serial
  }

  /** Every cached instance is the caller's own or was made before the store's next serial. */
  predicate WellSerialled(s: Store) {
    forall k :: k in s.bindings && s.bindings[k].Cached? ==> Issued(s, s.bindings[k].instance)
  }

  /** A fresh container: nothing bound, no initializers. */
  function Empty(): (c: Container)
    ensures forall k :: !Has(c, k)
    ensures |c.initializers| == 0
    ensures WellSerialled(c.store)
  {
    Container(Store(map[], 0), [])
  }

  /** `has`: a binding or a cached instance exists for exactly this key. */
  predicate Has(c: Container, k: Key)
    ensures Has(c, k) <==> Lookup(c, k).Some?
  {
    k in c.store.bindings
  }

  /** The binding for `k`, if any. */
  function Lookup(c: Container, k: Key): Option<Binding> {
    if k in c.store.bindings then Some(c.store.bindings[k]) else None
  }

  /** `register`: binds `k` to a factory run on every request, replacing what was bound to `k`. */
  function Register(c: Container, k: Key, f: FactoryId): (r: Container)
    ensures Lookup(r, k) == Some(Factory(f))
    ensures forall k' :: k' != k ==> Lookup(r, k') == Lookup(c, k')
    ensures r.initializers == c.initializers && r.store.serial == c.store.serial
    ensures WellSerialled(c.store) ==> WellSerialled(r.store)
  {
    c.(store := c.store.(bindings := c.store.bindings[k := Factory(f)]))
  }

  /** The second argument of `singleton`: a closure run on first request, or a ready instance (which may carry its own tag). */
  datatype SingletonDefinition = Closure(f: FactoryId) | Instance(v: Value, ownTag: Option<Tag>)

  /** The key `singleton` binds: the given tag, else a ready instance's own tag, else no tag. */
  function SingletonKey(ty: TypeName, def: SingletonDefinition, tag: Option<Tag>): (k: Key)
    ensures k.ty == ty
    ensures tag.Some? ==> k.tag == tag
    ensures tag.None? && def.Closure? ==> k.tag.None?
    ensures tag.None? && def.Instance? ==> k.tag == def.ownTag
  {
    if tag.Some? then Key(ty, tag)
    else if def.Instance? then Key(ty, def.ownTag)
    else Key(ty, None)
  }

  /** `singleton`: a closure is bound to run once; a ready instance is cached at once. */
  function Singleton(c: Container, ty: TypeName, def: SingletonDefinition, tag: Option<Tag>): (r: Container)
    ensures var k := SingletonKey(ty, def, tag);
            && Lookup(r, k) == Some(match def case Closure(f) => SingletonFactory(f) case Instance(v, _) => Cached(v))
            && (forall k' :: k' != k ==> Lookup(r, k') == Lookup(c, k'))
    ensures r.initializers == c.initializers && r.store.serial == c.store.serial
    ensures WellSerialled(c.store) && (def.Instance? ==> Issued(c.store, def.v)) ==> WellSerialled(r.store)
  {
    var binding := match def case Closure(f) => SingletonFactory(f) case Instance(v, _) => Cached(v);
    c.(store := c.store.(bindings := c.store.bindings[SingletonKey(ty, def, tag) := binding]))
  }

  /** The keys `unregister(ty, tagged)` drops: the untagged key, and with `tagged` every tagged key of `ty` too. */
  predicate Unregisters(ty: TypeName, tagged: bool, k: Key) {
    k.ty == ty && (k.tag.None? || tagged)
  }

  /** `unregister`: removes the binding (and so any cached singleton) of `ty`, and with `tagged` its tagged ones. */
  function Unregister(c: Container, ty: TypeName, tagged: bool): (r: Container)
    ensures forall k :: Has(r, k) <==> Has(c, k) && !Unregisters(ty, tagged, k)
    ensures forall k :: Has(r, k) ==> Lookup(r, k) == Lookup(c, k)
    ensures r.initializers == c.initializers && r.store.serial == c.store.serial
    ensures WellSerialled(c.store) ==> WellSerialled(r.store)
  {
    var b := c.store.bindings;
    c.(store := c.store.(bindings := map k | k in b && !Unregisters(ty, tagged, k) :: b[k]))
  }

  /** `addInitializer`: the new initializer is tried after all earlier ones. */
  function AddInitializer(c: Container, i: Initializer): (r: Container)
    ensures |r.initializers| == |c.initializers| + 1
    ensures r.initializers[..|c.initializers|] == c.initializers && r.initializers[|c.initializers|] == i
    ensures r.store == c.store
  {
    c.(initializers := c.initializers + [i])
  }

  /** `getInitializers`: every initializer added, in the order they were added and are tried. */
  function Initializers(c: Container): seq<Initializer> {
    c.initializers
  }

  /** The initializers read back as exactly the ones added, oldest first; `register`, `singleton` and `unregister` leave them alone. */
  lemma {:induction false} InitializersInOrder(c: Container, i: Initializer, k: Key, f: FactoryId, ty: TypeName, def: SingletonDefinition, tag: Option<Tag>, tagged: bool)
    ensures Initializers(Empty()) == []
    ensures Initializers(AddInitializer(c, i)) == Initializers(c) + [i]
    ensures Initializers(Register(c, k, f)) == Initializers(c)
    ensures Initializers(Singleton(c, ty, def, tag)) == Initializers(c)
    ensures Initializers(Unregister(c, ty, tagged)) == Initializers(c)
  {
    var r := AddInitializer(c, i);
    assert r.initializers == r.initializers[..|c.initializers|] + [r.initializers[|c.initializers|]];
  }

  /** An empty container has nothing; after `register` or `singleton` it has exactly the key bound. */
  lemma HasAfterBinding(k: Key, f: FactoryId, ty: TypeName, def: SingletonDefinition, tag: Option<Tag>)
    ensures !Has(Empty(), k)
    ensures Has(Register(Empty(), k, f), k)
    ensures forall k' :: Has(Register(Empty(), k, f), k') <==> k' == k
    ensures forall k' :: Has(Singleton(Empty(), ty, def, tag), k') <==> k' == SingletonKey(ty, def, tag)
  {
    forall k' ensures Has(Register(Empty(), k, f), k') <==> k' == k {
      if k' != k {
        assert Lookup(Register(Empty(), k, f), k') == Lookup(Empty(), k');
      }
    }
    forall k' ensures Has(Singleton(Empty(), ty, def, tag), k') <==> k' == SingletonKey(ty, def, tag) {
      if k' != SingletonKey(ty, def, tag) {
        assert Lookup(Singleton(Empty(), ty, def, tag), k') == Lookup(Empty(), k');
      }
    }
  }
}
