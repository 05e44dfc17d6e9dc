/**
 * The typed handles onto the attribute stores of a manager
 * (include/ringmesh/basic/attributes.h, lines 758-1224): `AttributeBase<T>`
 * together with `Attribute<T>` as class `Attribute`, and the specialisation
 * `Attribute< bool >`, which keeps one byte per item, as class `BoolAttribute`.
 */
module Attributes {
  import opened Types
  import opened StoreModel
  import opened Stores
  import opened AttributeStores
  import opened Manager

  /** A store after `set_value( i, value )`: item `i` is `value`. */
  function WithItem<T>(v: StoreView<T>, i: nat, value: T): (r: StoreView<T>)
    requires i < |v.items|
  {
    v.(items := v.items[i := value])
  }

  /** A store whose first `n` items have been set to `value`. */
  function FilledPrefix<T>(v: StoreView<T>, value: T, n: nat): (r: StoreView<T>)
    ensures r.kind == v.kind && r.typeId == v.typeId && r.elementSize == v.elementSize && r.size == v.size
    ensures |r.items| == |v.items|
  {
    v.(items := seq(|v.items|, k requires 0 <= k < |v.items| => if k < n then value else v.items[k]))
  }

  /** Updating the same key twice keeps only the second value. */
  lemma UpdateTwice<K, V>(m: map<K, V>, k: K, a: V, b: V)
    ensures m[k := a][k := b] == m[k := b]
  {
  }

  /** Setting the one item of a constant store to `value` makes it the constant store of `value`. */
  lemma ConstantWithItem<T>(c: StoreView<T>, value: T)
    requires c.kind == ConstantKind && c.size == 1 && |c.items| == 1
    ensures WithItem(c, 0, value) == StoreView(ConstantKind, c.typeId, c.elementSize, c.zero, 1, [value])
  {
    assert WithItem(c, 0, value).items == [value];
  }

  /** A store after `fill( value )`: every item it holds is `value`. */
  function Filled<T>(v: StoreView<T>, value: T): (r: StoreView<T>)
    ensures v.Valid() ==> r.Valid()
    ensures r.kind == v.kind && r.typeId == v.typeId && r.elementSize == v.elementSize && r.size == v.size
    ensures |r.items| == |v.items| && forall k :: 0 <= k < |r.items| ==> r.items[k] == value
  {
    v.(items := seq(|v.items|, _ => value))
  }

  /** Setting item `n` of a store whose first `n` items are `value` gives one whose first `n + 1` are. */
  lemma FilledPrefixStep<T>(v: StoreView<T>, value: T, n: nat)
    requires n < |v.items|
    ensures WithItem(FilledPrefix(v, value, n), n, value) == FilledPrefix(v, value, n + 1)
  {
    assert WithItem(FilledPrefix(v, value, n), n, value).items == FilledPrefix(v, value, n + 1).items;
  }

  /** Once every item has been set, the store is filled. */
  lemma FilledPrefixAll<T>(v: StoreView<T>, value: T)
    ensures FilledPrefix(v, value, |v.items|) == Filled(v, value)
  {
    assert FilledPrefix(v, value, |v.items|).items == Filled(v, value).items;
  }

  /** Nothing is set yet. */
  lemma FilledPrefixNone<T>(v: StoreView<T>, value: T)
    ensures FilledPrefix(v, value, 0) == v
  {
    assert FilledPrefix(v, value, 0).items == v.items;
  }

  /** The store `new VectorStore< T >()` creates: a vector store with no items. */
  function EmptyVector<T>(typeId: string, elementSize: Index, zero: T): StoreView<T> {
    StoreView(VectorKind, typeId, elementSize, zero, 0, [])
  }

  /** `new AttributeStore()` given `new VectorStore< T >()` as its store (attributes.h:801-802). */
  method NewVectorHolder<T(0)>(typeId: string, elementSize: Index, zero: T) returns (h: AttributeStore<T>)
    ensures fresh(h) && fresh(h.store) && h.Valid() && h.store.View() == EmptyVector(typeId, elementSize, zero)
  {
    var s := new Store<T>.Vector(typeId, elementSize, zero);
    h := new AttributeStore<T>();
    h.SetStore(s);
  }

  /**
   * A new attribute store holding a new, empty vector store, bound in `m`
   * under the free `name` (attributes.h:799-804).
   */
  method BindNewStore<T(0)>(m: AttributesManager<T>, name: string, typeId: string, elementSize: Index, zero: T)
    returns (holder: AttributeStore<T>)
    requires m.Valid() && name !in m.attributes
    modifies m
    ensures fresh(holder) && holder.store != null && fresh(holder.store) && m.Valid() && m.Binds(holder)
    ensures m.attributes == old(m.attributes)[name := holder] && m.nbItems == old(m.nbItems)
    ensures m.Holders == old(m.Holders) + {holder} && m.owner == old(m.owner)[holder.store := name]
    ensures m.views == old(m.views)[name := Resized(EmptyVector(typeId, elementSize, zero), m.nbItems)]
    ensures old(m.SizesAgree()) ==> m.SizesAgree()
  {
    holder := NewVectorHolder(typeId, elementSize, zero);
    m.BindAttributeStore(name, holder);
  }

  /**
   * `AttributeBase<T>` and `Attribute<T>`: a handle that is either unbound or
   * bound to one attribute store of a manager.
   */
  class Attribute<T(0)> {
    /** `typeid( T ).name()`, `sizeof( T )` and `T()`, which a store this handle creates is made of. */
    const typeId: string
    const elementSize: Index
    const zero: T
    /** `manager_` and `store_` (939-940). */
    var manager: AttributesManager?<T>
    var store: AttributeStore?<T>

    /** `Attribute()` (960): an unbound handle. */
    constructor (typeId: string, elementSize: Index, zero: T)
      ensures this.typeId == typeId && this.elementSize == elementSize && this.zero == zero
      ensures manager == null && store == null
    {
      this.typeId := typeId;
      this.elementSize := elementSize;
      this.zero := zero;
      manager := null;
      store := null;
    }

    /** `is_bound()` (769-772). */
    predicate IsBound()
      reads this
    {
      store != null
    }

    /** `manager()` (913-916). */
    function Manager(): AttributesManager?<T>
      reads this
    {
      manager
    }

    /**
     * The handle is bound to an attribute store of the well-formed manager
     * `m`, the one bound to the name that `m` owns its store under.
     */
    ghost predicate BoundIn(m: AttributesManager<T>)
      reads this, m, m.Holders, m.owner.Keys
    {
      manager == m && store != null && m.Valid() && m.Binds(store) && m.Unowned(this)
    }

    /** The name the bound handle is bound to. */
    ghost function Name(): string
      requires manager != null && BoundIn(manager)
      reads this, manager, manager.Holders, manager.owner.Keys
    {
      manager.owner[store.store]
    }

    /** `size()` (904-907): the number of items of the bound store. */
    function Size(): Index
      requires store != null && store.store != null
      reads this, store, store.store
    {
      store.store.size
    }

    /** `value( i )` and `operator[]` (993-1007): item `i` of the bound store. */
    function Value(i: nat): T
      requires store != null && store.store != null && store.store.Valid() && i < Size()
      reads this, store, store.store
    {
      store.store.items[i]
    }

    /**
     * `bind( manager, name )` (794-810): the handle is bound to the store of
     * `name`; when there is none, a new attribute store holding a new, empty
     * vector store is bound under `name` first, and gets the manager's
     * `nb_items()` items. A store already bound under `name` must hold this
     * handle's element type.
     */
    method Bind(m: AttributesManager<T>, name: string)
      requires !IsBound() && m.Valid() && m.Unowned(this)
      requires name in m.attributes ==> m.attributes[name].store.typeId == typeId
      modifies this, m
      ensures BoundIn(m) && name in m.attributes && store == m.attributes[name] && m.nbItems == old(m.nbItems)
      ensures old(name in m.attributes) ==>
                m.attributes == old(m.attributes) && m.views == old(m.views) && m.Holders == old(m.Holders) && m.owner == old(m.owner)
      ensures old(name !in m.attributes) ==>
                fresh(store) && fresh(store.store) && m.attributes == old(m.attributes)[name := store] &&
                m.views == old(m.views)[name := Resized(EmptyVector(typeId, elementSize, zero), m.nbItems)]
      ensures old(m.SizesAgree()) ==> m.SizesAgree()
    {
      var found := m.FindAttributeStore(name);
      if found == null {
        BindNew(m, name);
      } else {
        manager, store := m, found;
      }
    }

    /**
     * The path of `bind` (799-804), and of the corrected
     * `create_vector_attribute`, for a name nothing is bound to: a new
     * attribute store holding a new, empty vector store is bound under `name`.
     */
    method BindNew(m: AttributesManager<T>, name: string)
      requires !IsBound() && m.Valid() && m.Unowned(this) && name !in m.attributes
      modifies this, m
      ensures BoundIn(m) && fresh(store) && fresh(store.store) && m.attributes == old(m.attributes)[name := store] && m.nbItems == old(m.nbItems)
      ensures m.views == old(m.views)[name := Resized(EmptyVector(typeId, elementSize, zero), m.nbItems)]
      ensures old(m.SizesAgree()) ==> m.SizesAgree()
    {
      var holder := BindNewStore(m, name, typeId, elementSize, zero);
      Attach(m, holder);
    }

    /** The handle takes `m` and the attribute store `holder` bound in it. */
    method Attach(m: AttributesManager<T>, holder: AttributeStore<T>)
      requires m.Valid() && m.Binds(holder) && m.Unowned(this)
      modifies this
      ensures BoundIn(m) && store == holder && store.store == holder.store
    {
      manager, store := m, holder;
    }

    /**
     * `bind_if_is_defined( manager, name )` (819-830): the handle is bound to
     * the store of `name` when there is one, and stays unbound otherwise; its
     * manager is `m` in both cases.
     */
    method BindIfIsDefined(m: AttributesManager<T>, name: string)
      requires !IsBound() && m.Valid() && m.Unowned(this)
      requires name in m.attributes ==> m.attributes[name].store.typeId == typeId
      modifies this
      ensures manager == m && (IsBound() <==> name in m.attributes)
      ensures IsBound() ==> BoundIn(m) && store == m.attributes[name]
    {
      manager := m;
      store := m.FindAttributeStore(name);
    }

    /**
     * `create_vector_attribute( manager, name, nb_component )` as corrected:
     * `name` must be free, and a new attribute store with a new vector store
     * is bound under it. `nbComponent` is ignored, as in the source.
     */
    method CreateVectorAttribute(m: AttributesManager<T>, name: string, nbComponent: int)
      requires !IsBound() && m.Valid() && m.Unowned(this) && name !in m.attributes
      modifies this, m
      ensures BoundIn(m) && fresh(store) && fresh(store.store) && m.attributes == old(m.attributes)[name := store] && m.nbItems == old(m.nbItems)
      ensures m.views == old(m.views)[name := Resized(EmptyVector(typeId, elementSize, zero), m.nbItems)]
      ensures old(m.SizesAgree()) ==> m.SizesAgree()
    {
      BindNew(m, name);
    }

    /**
     * `create_vector_attribute` as written (837-847): the attribute store it
     * hands to `bind_attribute_store` never receives a store, so it is not
     * well formed and `BindAttributeStore`'s requirement on it fails; the
     * model stops before that call.
     */
    method CreateVectorAttributeAsWritten(m: AttributesManager<T>, name: string, nbComponent: int)
      returns (handedOver: AttributeStore<T>)
      requires !IsBound() && m.Valid() && name !in m.attributes
      modifies this
      ensures manager == m && store == handedOver && fresh(handedOver)
      ensures handedOver.store == null && !handedOver.Valid()
    {
      manager := m;
      handedOver := new AttributeStore<T>();
      store := handedOver;
    }

    /** `unbind()` (778-783): the bound handle forgets its manager and store. */
    method Unbind()
      requires IsBound()
      modifies this
      ensures manager == null && store == null
    {
      manager, store := null, null;
    }

    /**
     * `destroy()` (855-861): the store the handle is bound to is deleted from
     * its manager and the handle is unbound.
     */
    method Destroy()
      requires manager != null && BoundIn(manager)
      modifies this, manager
      ensures manager == null && store == null
      ensures old(manager).Valid() && old(manager).nbItems == old(manager.nbItems)
      ensures old(manager).attributes == old(manager.attributes) - {old(Name())}
      ensures old(manager).views == old(manager.views) - {old(Name())}
    {
      var m, s := manager, store;
      manager, store := null, null;
      m.DeleteAttributeStoreObject(s);
    }

    /**
     * `set_value( i, value )` of `Attribute<T>` (981-986): item `i`, which
     * must exist, becomes `value`; every other item and every other store
     * keeps its value.
     */
    method SetValue(i: Index, value: T)
      requires manager != null && BoundIn(manager) && i < Size()
      modifies manager, store.store
      ensures manager == old(manager) && store == old(store) && BoundIn(manager)
      ensures manager.attributes == old(manager.attributes) && manager.nbItems == old(manager.nbItems)
      ensures manager.Holders == old(manager.Holders) && manager.owner == old(manager.owner)
      ensures Name() == old(Name()) && i < |old(manager.views[Name()]).items|
      ensures manager.views == old(manager.views)[Name() := WithItem(old(manager.views[Name()]), i, value)]
      ensures Size() == old(Size()) && Value(i) == value
      ensures forall j :: 0 <= j < Size() && j != i ==> Value(j) == old(Value(j))
    {
      manager.BoundView(store);
      manager.WriteItem(store, i, value);
    }

    /**
     * `fill( value )` (1014-1020): every item of the bound store becomes
     * `value`.
     */
    method Fill(value: T)
      requires manager != null && BoundIn(manager)
      modifies manager, store.store
      ensures manager == old(manager) && store == old(store) && BoundIn(manager)
      ensures manager.attributes == old(manager.attributes) && manager.nbItems == old(manager.nbItems)
      ensures manager.Holders == old(manager.Holders) && manager.owner == old(manager.owner)
      ensures manager.views == old(manager.views)[Name() := Filled(old(manager.views[Name()]), value)]
    {
      ghost var name := Name();
      ghost var before := manager.views;
      manager.BoundView(store);
      FilledPrefixNone(before[name], value);
      var i: Index := 0;
      while i < Size()
        invariant manager == old(manager) && store == old(store) && BoundIn(manager) && Name() == name
        invariant manager.attributes == old(manager.attributes) && manager.nbItems == old(manager.nbItems)
        invariant manager.Holders == old(manager.Holders) && manager.owner == old(manager.owner)
        invariant name in before && before[name].Valid() && Size() == before[name].size && i <= Size()
        invariant manager.views == before[name := FilledPrefix(before[name], value, i)]
      {
        FillStep(name, before, value, i);
        i := i + 1;
      }
      FilledPrefixAll(before[name], value);
    }

    /** One turn of the loop of `Fill`: item `i` becomes `value`, one more item is filled. */
    method FillStep(ghost name: string, ghost before: map<string, StoreView<T>>, value: T, i: Index)
      requires manager != null && BoundIn(manager) && Name() == name
      requires name in before && before[name].Valid() && Size() == before[name].size && i < Size()
      requires manager.views == before[name := FilledPrefix(before[name], value, i)]
      modifies manager, store.store
      ensures manager == old(manager) && store == old(store) && BoundIn(manager) && Name() == name
      ensures manager.attributes == old(manager.attributes) && manager.nbItems == old(manager.nbItems)
      ensures manager.Holders == old(manager.Holders) && manager.owner == old(manager.owner)
      ensures Size() == old(Size()) && manager.views == before[name := FilledPrefix(before[name], value, i + 1)]
    {
      SetValue(i, value);
      FilledPrefixStep(before[name], value, i);
      UpdateTwice(before, name, FilledPrefix(before[name], value, i), FilledPrefix(before[name], value, i + 1));
    }

    /**
     * The first half of `set_constant_value( value )` (865-869): the bound
     * attribute store's store is replaced by a new constant store.
     */
    method ReplaceWithConstant()
      requires manager != null && BoundIn(manager)
      modifies manager, store
      ensures manager == old(manager) && store == old(store) && BoundIn(manager) && Name() == old(Name())
      ensures manager.attributes == old(manager.attributes) && manager.nbItems == old(manager.nbItems)
      ensures fresh(store.store) && |store.store.items| == 1
      ensures store.store.View() == StoreView(ConstantKind, typeId, elementSize, zero, 1, store.store.items)
      ensures manager.views == old(manager.views)[Name() := store.store.View()]
    {
      var c := new Store<T>.Constant(typeId, elementSize, zero);
      manager.ReplaceStore(store, c);
    }

    /**
     * `set_constant_value( value )` (865-869): the attribute becomes a
     * constant store whose one item is `value`.
     */
    method SetConstantValue(value: T)
      requires manager != null && BoundIn(manager)
      modifies manager, store
      ensures manager == old(manager) && store == old(store) && BoundIn(manager)
      ensures manager.attributes == old(manager.attributes) && manager.nbItems == old(manager.nbItems)
      ensures manager.views == old(manager.views)[old(Name()) := StoreView(ConstantKind, typeId, elementSize, zero, 1, [value])]
    {
      ghost var before := manager.views;
      ghost var name := Name();
      ReplaceWithConstant();
      ghost var c := manager.views[name];
      SetValue(0, value);
      ConstantWithItem(c, value);
      UpdateTwice(before, name, c, WithItem(c, 0, value));
    }

    /**
     * `is_defined( manager, name )` (892-898): a store is bound to `name` and
     * holds this handle's element type.
     */
    function IsDefined(m: AttributesManager<T>, name: string): (r: bool)
      requires m.Valid()
      reads m, m.Holders, m.owner.Keys
      ensures r <==> name in m.attributes && m.attributes[name].store.typeId == typeId
    {
      var found := m.FindAttributeStore(name);
      found != null && found.ElementsTypeMatches(typeId)
    }
  }

  /** `Byte( x )` for a `bool`: 1 for true and 0 for false. */
  function ByteOf(x: bool): (b: Byte)
    ensures (b != 0) == x && (b == 0 || b == 1)
  {
    if x then 1 else 0
  }

  /**
   * `Attribute< bool >` (attributes.h:1031-1224): a handle onto a store of
   * bytes, one per item, read as `byte != 0` and written as `Byte( x )`
   * through the accessor classes.
   */
  class BoolAttribute {
    /** The `AttributeBase< Byte >` this specialisation derives from (1031, 1041). */
    const base: Attribute<Byte>

    /** `Attribute()` (1043-1045); `byteTypeId` is `typeid( Byte ).name()`. */
    constructor (byteTypeId: string)
      ensures fresh(base) && base.typeId == byteTypeId && base.elementSize == 1 && base.zero == 0
      ensures base.manager == null && base.store == null
    {
      base := new Attribute<Byte>(byteTypeId, 1, 0);
    }

    /**
     * `value( i )` and `operator[]` (1164-1172), read through the
     * accessors' `operator bool()` (1074-1077, 1105-1108): item `i` is true
     * when its byte is not zero.
     */
    function Value(i: nat): bool
      requires base.store != null && base.store.store != null && base.store.store.Valid() && i < base.Size()
      reads this, base, base.store, base.store.store
    {
      base.Value(i) != 0
    }

    /**
     * `set_value( i, bool )` (1179-1182) through `operator=( bool )`
     * (1125-1129): item `i` becomes `Byte( x )`, and reads back as `x`.
     */
    method SetValue(i: Index, x: bool)
      requires base.manager != null && base.BoundIn(base.manager) && i < base.Size()
      modifies base.manager, base.store.store
      ensures base.manager == old(base.manager) && base.store == old(base.store) && base.BoundIn(base.manager)
      ensures base.manager.attributes == old(base.manager.attributes) && base.manager.nbItems == old(base.manager.nbItems)
      ensures base.manager.Holders == old(base.manager.Holders) && base.manager.owner == old(base.manager.owner)
      ensures base.Name() == old(base.Name()) && i < |old(base.manager.views[base.Name()]).items|
      ensures base.manager.views == old(base.manager.views)[base.Name() := WithItem(old(base.manager.views[base.Name()]), i, ByteOf(x))]
      ensures base.Size() == old(base.Size()) && Value(i) == x
      ensures forall j :: 0 <= j < base.Size() && j != i ==> base.Value(j) == old(base.Value(j))
    {
      base.SetValue(i, ByteOf(x));
    }

    /**
     * `set_value( i, Byte )` (1174-1177): the byte is assigned through
     * `operator=( bool )`, so item `i` becomes 1 when `b` is not zero and 0
     * when it is.
     */
    method SetValueByte(i: Index, b: Byte)
      requires base.manager != null && base.BoundIn(base.manager) && i < base.Size()
      modifies base.manager, base.store.store
      ensures base.manager == old(base.manager) && base.store == old(base.store) && base.BoundIn(base.manager)
      ensures base.manager.attributes == old(base.manager.attributes) && base.manager.nbItems == old(base.manager.nbItems)
      ensures base.Name() == old(base.Name()) && i < |old(base.manager.views[base.Name()]).items|
      ensures base.manager.views == old(base.manager.views)[base.Name() := WithItem(old(base.manager.views[base.Name()]), i, ByteOf(b != 0))]
      ensures base.Size() == old(base.Size()) && base.Value(i) == (if b == 0 then 0 else 1) && Value(i) == (b != 0)
    {
      SetValue(i, b != 0);
    }

    /**
     * `operator=( const BoolAttributeAccessor& )` and
     * `operator=( const ConstBoolAttributeAccessor& )` (1136-1157): the raw
     * byte of item `from` of `src`, which may be this attribute, is copied to
     * item `to`. The first skips assigning an accessor to itself, which would
     * copy a byte onto itself, so both overloads are this one method.
     */
    method CopyElement(to: Index, src: BoolAttribute, from: nat)
      requires base.manager != null && base.BoundIn(base.manager) && to < base.Size()
      requires src.base.store != null && src.base.store.store != null && src.base.store.store.Valid() && from < src.base.Size()
      modifies base.manager, base.store.store
      ensures base.manager == old(base.manager) && base.store == old(base.store) && base.BoundIn(base.manager)
      ensures base.manager.attributes == old(base.manager.attributes) && base.manager.nbItems == old(base.manager.nbItems)
      ensures base.Name() == old(base.Name()) && to < |old(base.manager.views[base.Name()]).items|
      ensures base.manager.views == old(base.manager.views)[base.Name() := WithItem(old(base.manager.views[base.Name()]), to, old(src.base.Value(from)))]
      ensures base.Value(to) == old(src.base.Value(from)) && Value(to) == old(src.Value(from))
    {
      var b := src.base.Value(from);
      base.SetValue(to, b);
    }

    /**
     * `fill( val )` (1188-1195): every byte of the bound store becomes
     * `Byte( val )`; the loop is the one of `Attribute.Fill`.
     */
    method Fill(x: bool)
      requires base.manager != null && base.BoundIn(base.manager)
      modifies base.manager, base.store.store
      ensures base.manager == old(base.manager) && base.store == old(base.store) && base.BoundIn(base.manager)
      ensures base.manager.attributes == old(base.manager.attributes) && base.manager.nbItems == old(base.manager.nbItems)
      ensures base.manager.views == old(base.manager.views)[base.Name() := Filled(old(base.manager.views[base.Name()]), ByteOf(x))]
    {
      base.Fill(ByteOf(x));
    }

    /**
     * `set_constant_value( value )` (865-869) on `Attribute< bool >`: the
     * virtual `set_value` it calls is the byte overload, so the one item of
     * the new constant store is 1 or 0.
     */
    method SetConstantValue(b: Byte)
      requires base.manager != null && base.BoundIn(base.manager)
      modifies base.manager, base.store
      ensures base.manager == old(base.manager) && base.store == old(base.store) && base.BoundIn(base.manager)
      ensures base.manager.attributes == old(base.manager.attributes) && base.manager.nbItems == old(base.manager.nbItems)
      ensures base.manager.views ==
                old(base.manager.views)[old(base.Name()) := StoreView(ConstantKind, base.typeId, base.elementSize, base.zero, 1, [ByteOf(b != 0)])]
    {
      ghost var before := base.manager.views;
      ghost var name := base.Name();
      base.ReplaceWithConstant();
      ghost var c := base.manager.views[name];
      SetValueByte(0, b);
      ConstantWithItem(c, ByteOf(b != 0));
      UpdateTwice(before, name, c, WithItem(c, 0, ByteOf(b != 0)));
    }
  }
}
