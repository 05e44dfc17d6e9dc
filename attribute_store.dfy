/**
 * `AttributeStore` (include/ringmesh/basic/attributes.h, lines 337-579): the
 * owner of one `Store`, which it forwards resize, clear, permutation,
 * compression and type queries to, and which it can clone through the type
 * registry.
 */
module AttributeStores {
  import opened Types
  import opened StoreModel
  import opened Stores
  import opened Registry

  class AttributeStore<T(0)> {
    /** `store_`: null until `set_store` is called. */
    var store: Store?<T>

    /** `AttributeStore()`: owns no store yet. */
    constructor ()
      ensures store == null
    {
      store := null;
    }

    ghost predicate Valid()
      reads this, store
    {
      store != null && store.Valid()
    }

    /** `set_store( store )` (attributes.h:352-355): takes ownership of `s`. */
    method SetStore(s: Store<T>)
      modifies this
      ensures store == s
    {
      store := s;
    }

    /** `get_store()` (attributes.h:357-360): the owned store, which must exist. */
    function GetStore(): (s: Store<T>)
      requires store != null
      reads this
      ensures s == store
    {
      store
    }

    /** `resize( new_size )` (attributes.h:366-369), forwarded to the store. */
    method Resize(newSize: Index)
      requires store != null
      modifies store
      ensures store.View() == Resized(old(store.View()), newSize)
    {
      store.Resize(newSize);
    }

    /** `clear()` (attributes.h:374-377): empties a vector store, keeps a constant one. */
    method Clear()
      requires store != null
      modifies store
      ensures store.View() == Cleared(old(store.View()))
    {
      store.Clear();
    }

    /** `apply_permutation( permutation )` (attributes.h:396-399). */
    method ApplyPermutation(perm: seq<Index>)
      requires Valid()
      requires store.kind == VectorKind ==> IsPermutation(perm, store.size)
      modifies store
      ensures Valid()
      ensures store.View() == PermutedView(old(store.View()), perm)
    {
      store.ApplyPermutation(perm);
    }

    /** `compress( old2new )` (attributes.h:418-421). */
    method Compress(old2new: seq<Index>)
      requires Valid()
      requires store.kind == VectorKind ==> |old2new| == store.size && IsCompressMap(old2new)
      modifies store
      ensures Valid()
      ensures store.View() == CompressedView(old(store.View()), old2new)
    {
      store.Compress(old2new);
    }

    /** `elements_type_matches( type_name )` (attributes.h:457-460). */
    function ElementsTypeMatches(typeName: string): (r: bool)
      requires store != null
      reads this, store
      ensures r <==> typeName == store.typeId
    {
      store.ElementsTypeMatches(typeName)
    }

    /**
     * `create_attribute_store_by_element_type_name( name )` (attributes.h:
     * 492-503): the creator registered under `name`, which must be known,
     * creates an attribute store of that element type. `create_attribute_store`
     * is pure virtual (330); a creator here builds what `bind` builds for a
     * new attribute (799-804): an attribute store holding a new, empty vector
     * store of the creator's element type. `zero` is that type's `T()`.
     */
    static method CreateAttributeStoreByElementTypeName(registry: TypeRegistry, elementTypeName: string, zero: T)
      returns (a: AttributeStore<T>)
      requires registry.ElementTypeNameIsKnown(elementTypeName)
      ensures fresh(a) && fresh(a.store) && a.Valid()
      ensures var creator := registry.typeNameToCreator[elementTypeName];
        a.store.View() == StoreView(VectorKind, creator.elementTypeId, creator.elementSize, zero, 0, [])
      ensures registry.Consistent() ==>
        && registry.ElementTypeIdNameIsKnown(a.store.typeId)
        && registry.ElementTypeIdNameByElementTypeName(elementTypeName) == a.store.typeId
        && registry.ElementTypeIdNameByElementTypeName(registry.ElementTypeNameByElementTypeIdName(a.store.typeId)) == a.store.typeId
    {
      var creator := registry.typeNameToCreator[elementTypeName];
      var s := new Store<T>.Vector(creator.elementTypeId, creator.elementSize, zero);
      a := new AttributeStore<T>();
      a.SetStore(s);
    }

    /**
     * `clone()` as its documentation describes it (attributes.h:423-427): a
     * new attribute store wrapping a new store of the same kind, size and
     * contents. The mangled id of the elements is first turned into their
     * type name, which is what the creator lookup is keyed by.
     */
    method Clone(registry: TypeRegistry) returns (c: AttributeStore<T>)
      requires Valid() && registry.Consistent() && registry.ElementTypeIdNameIsKnown(store.typeId)
      ensures fresh(c) && fresh(c.store) && c.Valid()
      ensures c.store.View() == store.View()
    {
      var name := registry.ElementTypeNameByElementTypeIdName(store.typeId);
      c := CreateAttributeStoreByElementTypeName(registry, name, store.zero);
      var s := store.Clone();
      c.SetStore(s);
    }

    /**
     * `clone()` as written (attributes.h:428-437): the mangled id is handed to
     * the lookup by type name, so the id itself must be registered as a name.
     */
    method CloneAsWritten(registry: TypeRegistry) returns (c: AttributeStore<T>)
      requires Valid() && registry.ElementTypeNameIsKnown(store.typeId)
      ensures fresh(c) && fresh(c.store) && c.Valid()
      ensures c.store.View() == store.View()
    {
      c := CreateAttributeStoreByElementTypeName(registry, store.typeId, store.zero);
      var s := store.Clone();
      c.SetStore(s);
    }
  }

  /**
   * With `double` registered under the mangled id "d", an attribute store of
   * doubles has a known element id but the as-written clone asks whether "d"
   * is a known type name, which it is not: its precondition fails.
   */
  method CloneAsWrittenExample() returns (idKnown: bool, nameKnown: bool)
    ensures idKnown && !nameKnown
  {
    var registry := new TypeRegistry();
    registry.RegisterAttributeCreator(AttributeStoreCreator("d", 8), "double", "d");
    var s := new Store<real>.Vector("d", 8, 0.0);
    var a := new AttributeStore<real>();
    a.SetStore(s);
    idKnown := registry.ElementTypeIdNameIsKnown(a.store.typeId);
    nameKnown := registry.ElementTypeNameIsKnown(a.store.typeId);
  }

  /**
   * A clone is independent of its original: a write to the clone's item 0
   * leaves the original's item 0 as it was.
   */
  method CloneIsIndependent() returns (original0: int, clone0: int)
    ensures original0 == 5 && clone0 == 9
  {
    var registry := new TypeRegistry();
    registry.RegisterAttributeCreator(AttributeStoreCreator("i", 4), "int", "i");
    var s := new Store<int>.Vector("i", 4, 0);
    s.Resize(2);
    s.SetItem(0, 5);
    var a := new AttributeStore<int>();
    a.SetStore(s);
    var c := a.Clone(registry);
    c.store.SetItem(0, 9);
    original0, clone0 := a.store.items[0], c.store.items[0];
  }
}
