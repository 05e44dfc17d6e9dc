# RINGMesh attributes, modelled in Dafny

This project models the attribute subsystem of RINGMesh
(`include/ringmesh/basic/attributes.h`) and two small utilities of
`include/ringmesh/basic/common.h`. Mesh elements (vertices, edges, cells, …)
are the *items* of an `AttributesManager`. The manager binds names to
`AttributeStore`s. Each attribute store owns one `Store` of values, one per
item. Typed handles (`Attribute<T>`, `Attribute<bool>` and the read-only
`ReadOnlyScalarAttributeAdapter`) bind to those stores by name, and read and
write them.

The files follow the structure of the header:

| file | module | models |
|---|---|---|
| `types.dfy` | `Types` | `index_t` (unsigned 32-bit, wrap-around written out), `NO_ID`, `Byte` |
| `store_model.dfy` | `StoreModel` | snapshots of a store (`StoreView`) and the specification functions of every store operation: resize, clear, compress, permutation, copy of an item, with their lemmas |
| `stores.dfy` | `Stores` | `VectorStore<T>` and `ConstantStore<T>`, as one class `Store` proved against `StoreModel` |
| `registry.dfy` | `Registry` | the three static maps of the type registry, and registration |
| `attribute_store.dfy` | `AttributeStores` | `AttributeStore`: ownership of a store, forwarding, clone |
| `manager.dfy` | `Manager` | `AttributesManager`: names to attribute stores, items count, structural operations on all stores |
| `attribute.dfy` | `Attributes` | `AttributeBase<T>`/`Attribute<T>` and `Attribute< bool >` |
| `scalar_adapter.dfy` | `ScalarAdapters` | name parsing (`foo[3]`), `get_element` index arithmetic, and the adapter's bound state |
| `common.dfy` | `Common` | `range` and `RINGMeshException` |
| `scenarios.dfy` | `Scenarios` | client-style uses of the handles with concrete values |

Mutable C++ objects are Dafny classes whose methods state their whole new
state through `modifies`/`ensures`. The manager keeps a ghost map `views`
from each bound name to a snapshot of its store. Its invariant `Valid()`
states three things:
- the snapshots mirror the heap;
- every store is owned by exactly one attribute store under one name;
- no handle aliases manager state.

A second invariant, `SizesAgree()`, states that every vector store has
`nb_items()` items. Every structural operation of the manager is proved to
keep it.

### Where the model follows the documentation instead of the bodies

- The bodies of `VectorStore::compress`, `VectorStore::apply_permutation` and
  `VectorStore::copy_item` are empty stubs in the header
  (attributes.h:198-201, 219-223, 229-232). The model implements what their
  documentation promises (attributes.h:90-114 and 379-417):
  - `Stores.Store.Compress` is the documented single in-place pass, followed by a resize to the new size;
  - `Stores.Store.ApplyPermutation` makes item `i` the old item `perm[i]`;
  - `Stores.Store.CopyItem` copies item `from` onto item `to`.

  As written, `compress` leaves a store unchanged while the manager sets
  `nb_items()` to the compressed size, so sizes no longer agree; this is a
  finding. The empty `apply_permutation` and `copy_item` leave every store as
  it was, which keeps sizes in agreement, so they are not.

  The manager declares `compress`, `apply_permutation` and `copy_item` without
  bodies; they are modelled from their documentation as "apply to every store".
- The manager's other operations and the adapter's `bind_if_is_defined`,
  `attribute_base_name` and `attribute_element_index` are declared in the
  header with their bodies elsewhere. They are modelled from their
  documentation and their uses.
- Five places where the code and the documented intent differ are listed
  under "## Findings". Each has an as-written member and a corrected member,
  and the rest of the model uses the corrected one.

## Model

| member | source | states |
|---|---|---|
| Types.AddIndex | include/ringmesh/basic/attributes.h:1412-1413 | `index_t` addition: the plain sum when it is below 2^32, otherwise the sum less 2^32 |
| Types.MulIndex | include/ringmesh/basic/attributes.h:1412-1413 | `index_t` multiplication: the plain product when it is below 2^32, and always congruent to it modulo 2^32 |
| Types.ToIndex | include/ringmesh/basic/types.h:70-75 | a cast to `index_t` is the value modulo 2^32: unchanged in range, a negative value is shifted by 2^32 |
| StoreModel.Resized | include/ringmesh/basic/attributes.h:169-173 | a resized vector store has exactly `n` items: the old ones up to `n`, then `T()`; a constant store is unchanged (250-253) |
| StoreModel.ResizeToOwnSizeKeepsStore | include/ringmesh/basic/attributes.h:169-173 | resizing a store to its own size changes nothing |
| StoreModel.ResizeThenShrink | include/ringmesh/basic/attributes.h:169-173 | growing then shrinking a store equals shrinking it directly |
| StoreModel.Cleared | include/ringmesh/basic/attributes.h:371-377 | a cleared vector store has size 0 and no items; a constant store is unchanged (264-266) |
| StoreModel.ClearedAsWritten | include/ringmesh/basic/attributes.h:185-188 | the as-written clear empties the items but keeps the reported size |
| StoreModel.ClearAsWrittenLosesItems | include/ringmesh/basic/attributes.h:185-188 | after the as-written clear of a non-empty store, the store reports items it no longer holds |
| StoreModel.CompressedSizeAfter | include/ringmesh/basic/attributes.h:401-417 | the size after the first `i` entries of the map is one past the largest kept target, and never exceeds `i` |
| StoreModel.CompressedSize | include/ringmesh/basic/attributes.h:401-417 | the compressed size bounds every kept target, is reached by one, and is at most the old size |
| StoreModel.CompressPrefix | include/ringmesh/basic/attributes.h:401-417 | the in-place pass after `i` steps has not touched the items from `i` on |
| StoreModel.Compressed | include/ringmesh/basic/attributes.h:401-417 | the compressed items number exactly the compressed size |
| StoreModel.CompressPrefixKeeps | include/ringmesh/basic/attributes.h:404-414 | after `i` steps, an item kept at `k < i` whose target no later item reuses sits at its target |
| StoreModel.CompressedMovesKeptItem | include/ringmesh/basic/attributes.h:404-411 | the documented meaning of compress: a kept item ends at `old2new[k]` |
| StoreModel.CompressedMovesAllKeptItems | include/ringmesh/basic/attributes.h:404-411 | when kept targets are distinct, every kept item ends at its target |
| StoreModel.KeptBeforeMonotone | include/ringmesh/basic/attributes.h:414 | the count of kept items grows with the prefix, strictly past a kept item |
| StoreModel.CompactingIsCompressMap | include/ringmesh/basic/attributes.h:414 | a compacting map (kept items numbered in order) meets compress's precondition `old2new[i] <= i` |
| StoreModel.CompactingTargetsDistinct | include/ringmesh/basic/attributes.h:404-414 | a compacting map sends distinct kept items to distinct places |
| StoreModel.CompactingSizeAfter | include/ringmesh/basic/attributes.h:404-414 | for a compacting map, the size after each prefix is the number of items kept in it |
| StoreModel.CompactingSizeIsKeptCount | include/ringmesh/basic/attributes.h:404-414 | for a compacting map, the compressed size is the number of kept items |
| StoreModel.Permuted | include/ringmesh/basic/attributes.h:90-106 | item `i` after `apply_permutation` is the old item `perm[i]` |
| StoreModel.ImageCard | include/ringmesh/basic/attributes.h:90-106 | distinct entries of a prefix of length `m` make a set of `m` values (the counting step for permutations) |
| StoreModel.PermutationIsOnto | include/ringmesh/basic/attributes.h:90-106 | a permutation of `0..n-1` hits every index |
| StoreModel.Inverse | include/ringmesh/basic/attributes.h:90-106 | the inverse of a permutation is a permutation, and composes with it to the identity on both sides |
| StoreModel.PermuteThenInverseRestores | include/ringmesh/basic/attributes.h:90-106 | permuting by `perm` then its inverse (or the other way round) restores the data |
| StoreModel.CompressedView | include/ringmesh/basic/attributes.h:401-421 | a compressed vector store has the compressed size and items; a constant store is unchanged (274-277) |
| StoreModel.PermutedView | include/ringmesh/basic/attributes.h:202-212 | a permuted vector store keeps its size and has item `perm[i]` at `i`; a constant store is unchanged (295-299) |
| StoreModel.CopiedItemView | include/ringmesh/basic/attributes.h:109-114 | after `copy_item( to, from )` item `to` is the old item `from` and nothing else changes; a constant store is unchanged (305-308) |
| StoreModel.ConstantStoreStaysSingle | include/ringmesh/basic/attributes.h:243-308 | every structural operation leaves a constant store as it is |
| StoreModel.PermutedViewInverse | include/ringmesh/basic/attributes.h:202-223 | applying a permutation and then its inverse restores the store |
| Stores.Store.Vector | include/ringmesh/basic/attributes.h:145-167 | a new vector store is empty, with the element size `sizeof( T )` |
| Stores.Store.Constant | include/ringmesh/basic/attributes.h:245-248 | a new constant store has size 1 and one item |
| Stores.Store.ElementsTypeMatches | include/ringmesh/basic/attributes.h:149-152 | true exactly when the name is the store's element type id |
| Stores.Store.Resize | include/ringmesh/basic/attributes.h:169-173 | the new store is `Resized` of the old one (a constant store only warns, 250-253) |
| Stores.Store.Clear | include/ringmesh/basic/attributes.h:185-188 | the intended clear: a vector store ends with size 0 and no items; a constant store is unchanged |
| Stores.Store.ClearAsWritten | include/ringmesh/basic/attributes.h:185-188 | the clear as written: items dropped, size kept |
| Stores.Store.Compress | include/ringmesh/basic/attributes.h:198-201 | the documented in-place pass produces exactly `CompressedView`, and the store stays well formed |
| Stores.Store.ApplyPermutation | include/ringmesh/basic/attributes.h:219-223 | the new store is `PermutedView` of the old one |
| Stores.Store.CopyItem | include/ringmesh/basic/attributes.h:229-232 | the new store is `CopiedItemView` of the old one |
| Stores.Store.Clone | include/ringmesh/basic/attributes.h:190-196 | a clone is a fresh store of the same kind, size and items (268-273 for a constant store) |
| Stores.Store.SetItem | include/ringmesh/basic/attributes.h:981-986 | a write through `data()` changes item `i` and nothing else |
| Stores.Store.CompressAsWritten | include/ringmesh/basic/attributes.h:198-201 | the compress as written: the store is left exactly as it was |
| Stores.CompressAsWrittenExample | include/ringmesh/basic/attributes.h:198-201 | a two-item store compressed as written with `[ 0, NO_ID ]` still holds 2 items where the compressed size is 1 |
| Stores.ClearAsWrittenExample | include/ringmesh/basic/attributes.h:185-188 | a three-item store cleared as written still reports 3 items while holding none |
| Registry.TypeRegistry.constructor | include/ringmesh/basic/attributes.h:572-577 | the registry starts empty and consistent |
| Registry.TypeRegistry.ElementTypeNameIsKnown | include/ringmesh/basic/attributes.h:470-475 | true exactly when a creator is registered under the name |
| Registry.TypeRegistry.ElementTypeIdNameIsKnown | include/ringmesh/basic/attributes.h:485-490 | true exactly when the mangled id is registered |
| Registry.TypeRegistry.ElementTypeNameByElementTypeIdName | include/ringmesh/basic/attributes.h:512-518 | in a consistent registry the name found for an id is known and maps back to that id |
| Registry.TypeRegistry.ElementTypeIdNameByElementTypeName | include/ringmesh/basic/attributes.h:528-533 | the id of a known name, or "" when only its creator is recorded; in a consistent registry it is known and is the creator's element type |
| Registry.TypeRegistry.RegisterAttributeCreator | include/ringmesh/basic/attributes.h:545-568 | corrected registration: refuses re-pointing a known name, records the three mappings, and keeps the registry consistent |
| Registry.TypeRegistry.RegisterAttributeCreatorAsWritten | include/ringmesh/basic/attributes.h:545-568 | registration as written: the same-type check applies only when the id is already known |
| Registry.RegisterRoundTrip | include/ringmesh/basic/attributes.h:470-568 | after registration both queries know the type, and the two lookups map name and id to each other |
| Registry.RegisterAsWrittenExample | include/ringmesh/basic/attributes.h:545-568 | re-registering "double" under a new id leaves the old id pointing at a name whose id changed |
| AttributeStores.AttributeStore.constructor | include/ringmesh/basic/attributes.h:340-345 | a new attribute store holds no store |
| AttributeStores.AttributeStore.SetStore | include/ringmesh/basic/attributes.h:352-355 | the attribute store now owns `s` |
| AttributeStores.AttributeStore.GetStore | include/ringmesh/basic/attributes.h:357-360 | the owned store |
| AttributeStores.AttributeStore.Resize | include/ringmesh/basic/attributes.h:366-369 | resizing forwards to the store: `Resized` |
| AttributeStores.AttributeStore.Clear | include/ringmesh/basic/attributes.h:371-377 | clearing forwards to the store and resizes it to 0 |
| AttributeStores.AttributeStore.ApplyPermutation | include/ringmesh/basic/attributes.h:379-399 | permutation forwards to the store: `PermutedView` |
| AttributeStores.AttributeStore.Compress | include/ringmesh/basic/attributes.h:401-421 | compression forwards to the store: `CompressedView` |
| AttributeStores.AttributeStore.ElementsTypeMatches | include/ringmesh/basic/attributes.h:457-460 | true exactly when the name is the owned store's element type id |
| AttributeStores.AttributeStore.CreateAttributeStoreByElementTypeName | include/ringmesh/basic/attributes.h:492-503 | a registered name yields a fresh attribute store holding a fresh, empty vector store of the element type id and size its creator was registered with; in a consistent registry that id is registered and leads back to the name's id |
| AttributeStores.AttributeStore.Clone | include/ringmesh/basic/attributes.h:423-437 | corrected clone: a fresh attribute store owning a fresh store equal to the original |
| AttributeStores.AttributeStore.CloneAsWritten | include/ringmesh/basic/attributes.h:428-437 | clone as written: the same result, but it requires the mangled id to be a registered type name |
| AttributeStores.CloneAsWrittenExample | include/ringmesh/basic/attributes.h:428-437 | with `double` registered as "d", the id "d" is known but is no known type name |
| AttributeStores.CloneIsIndependent | include/ringmesh/basic/attributes.h:190-196 | writing to a clone does not change the original |
| Manager.Apply | include/ringmesh/basic/attributes.h:630-745 | each structural operation keeps a store well formed and keeps its kind and element type |
| Manager.ApplyToStore | include/ringmesh/basic/attributes.h:630-745 | performing a structural operation on a store yields `Apply` of its snapshot |
| Manager.ApplyTo | include/ringmesh/basic/attributes.h:630-745 | an operation applied to all stores keeps the names and applies to each |
| Manager.ApplyToStores | include/ringmesh/basic/attributes.h:630-745 | the loop over the attribute stores applies the operation to each one |
| Manager.ResizeToCommonSizeKeeps | include/ringmesh/basic/attributes.h:619-636 | resizing stores that already have `n` items to `n` changes none |
| Manager.ApplyKeepsSizesAgreeing | include/ringmesh/basic/attributes.h:619-622 | "every vector attribute has nb_items() items" survives every structural operation, with the new count |
| Manager.ClonedOneMore | include/ringmesh/basic/attributes.h:733-737 | adding one more fresh clone keeps the clones disjoint and equal to their sources |
| Manager.AttributesManager.constructor | include/ringmesh/basic/attributes.h:592-595 | a new manager has no items and no attributes |
| Manager.AttributesManager.NbAttributes | include/ringmesh/basic/attributes.h:607-610 | the number of bound names, cast to `index_t` |
| Manager.AttributesManager.AttributeNames | include/ringmesh/basic/attributes.h:612-617 | every bound name, each exactly once |
| Manager.AttributesManager.NbItems | include/ringmesh/basic/attributes.h:619-628 | every vector attribute has `nb_items()` items |
| Manager.AttributesManager.Resize | include/ringmesh/basic/attributes.h:630-636 | every store is resized to `new_size`, which becomes `nb_items()` |
| Manager.AttributesManager.Clear | include/ringmesh/basic/attributes.h:638-644 | `nb_items()` becomes 0; with `keep_attributes` every store is cleared, otherwise every name is removed |
| Manager.AttributesManager.BindAttributeStore | include/ringmesh/basic/attributes.h:646-655 | the store is bound under the free name and resized to `nb_items()`; the invariants are kept |
| Manager.AttributesManager.FindAttributeStore | include/ringmesh/basic/attributes.h:657-672 | the store bound to the name, or null exactly when none is |
| Manager.AttributesManager.IsDefined | include/ringmesh/basic/attributes.h:674-683 | true exactly when the name is bound |
| Manager.AttributesManager.DeleteAttributeStore | include/ringmesh/basic/attributes.h:685-690 | the name is removed and every other attribute is kept |
| Manager.AttributesManager.DeleteAttributeStoreObject | include/ringmesh/basic/attributes.h:692-697 | the one name bound to the given store is removed; the store is no longer bound |
| Manager.AttributesManager.ApplyPermutation | include/ringmesh/basic/attributes.h:699-714 | every store is permuted by `perm`; sizes keep agreeing |
| Manager.AttributesManager.Compress | include/ringmesh/basic/attributes.h:716-731 | every store is compressed, and `nb_items()` becomes the compressed size |
| Manager.AttributesManager.Copy | include/ringmesh/basic/attributes.h:733-737 | this manager ends with fresh clones of every store of `rhs`, bound under the same names, with `rhs`'s item count |
| Manager.AttributesManager.Clones | include/ringmesh/basic/attributes.h:733-737 | every attribute store is cloned into fresh, disjoint objects equal to the originals |
| Manager.AttributesManager.Adopt | include/ringmesh/basic/attributes.h:646-655 | binding the clones under their names and resizing them gives a well-formed manager |
| Manager.AttributesManager.CopyItem | include/ringmesh/basic/attributes.h:739-745 | in every store, item `to` becomes item `from` |
| Manager.AttributesManager.BoundView | include/ringmesh/basic/attributes.h:587-750 | the store bound to a name is well formed and equals the snapshot of that name |
| Manager.AttributesManager.WriteItem | include/ringmesh/basic/attributes.h:981-986 | a write to item `i` of a bound store changes only that item of that store |
| Manager.AttributesManager.ReplaceStore | include/ringmesh/basic/attributes.h:865-869 | the bound attribute store takes a new store under the same name; nothing else changes; all sizes still agree when the new store is constant or has `nb_items()` items |
| Attributes.NewVectorHolder | include/ringmesh/basic/attributes.h:801-802 | a fresh attribute store owning a fresh empty vector store |
| Attributes.BindNewStore | include/ringmesh/basic/attributes.h:799-804 | the new attribute store is bound under the free name, with `nb_items()` items of `T()` |
| Attributes.Filled | include/ringmesh/basic/attributes.h:1014-1020 | a filled store keeps its shape and has every item equal to the value |
| Attributes.FilledPrefixStep | include/ringmesh/basic/attributes.h:1014-1020 | setting item `n` of a store filled up to `n` fills it up to `n + 1` |
| Attributes.FilledPrefixAll | include/ringmesh/basic/attributes.h:1014-1020 | filling every item is `fill` |
| Attributes.ByteOf | include/ringmesh/basic/attributes.h:1125-1129 | `Byte( x )` is 1 for true and 0 for false |
| Attributes.Attribute.constructor | include/ringmesh/basic/attributes.h:960 | a new handle is unbound |
| Attributes.Attribute.Bind | include/ringmesh/basic/attributes.h:794-810 | the handle is bound to the store of `name`; when there is none, a new empty vector store is bound first and gets `nb_items()` items |
| Attributes.Attribute.BindNew | include/ringmesh/basic/attributes.h:799-804 | a new attribute store is bound under `name` and the handle is bound to it |
| Attributes.Attribute.Attach | include/ringmesh/basic/attributes.h:797-803 | the handle takes the manager and the bound attribute store |
| Attributes.Attribute.BindIfIsDefined | include/ringmesh/basic/attributes.h:819-830 | the handle is bound exactly when `name` is defined, and to its store |
| Attributes.Attribute.CreateVectorAttribute | include/ringmesh/basic/attributes.h:837-847 | corrected: a new attribute store with a new vector store of `nb_items()` items is bound under the free name; `nb_items()` is unchanged and the sizes still agree |
| Attributes.Attribute.CreateVectorAttributeAsWritten | include/ringmesh/basic/attributes.h:837-847 | as written: the attribute store handed to the manager holds no store, so it is not well formed |
| Attributes.Attribute.Unbind | include/ringmesh/basic/attributes.h:778-783 | the handle forgets its manager and store |
| Attributes.Attribute.Destroy | include/ringmesh/basic/attributes.h:855-861 | the bound name is removed from the manager, everything else is kept, and the handle is unbound |
| Attributes.Attribute.SetValue | include/ringmesh/basic/attributes.h:981-986 | item `i` reads back as `value`; every other item and every other store is unchanged |
| Attributes.Attribute.Fill | include/ringmesh/basic/attributes.h:1014-1020 | every item of the bound store becomes `value`; other stores are unchanged |
| Attributes.Attribute.FillStep | include/ringmesh/basic/attributes.h:1016-1019 | one turn of the fill loop sets one more item |
| Attributes.Attribute.ReplaceWithConstant | include/ringmesh/basic/attributes.h:865-867 | the bound store is replaced by a fresh constant store of one item |
| Attributes.Attribute.SetConstantValue | include/ringmesh/basic/attributes.h:865-869 | the attribute becomes a constant store whose one item is `value` |
| Attributes.Attribute.IsBound | include/ringmesh/basic/attributes.h:769-772 | the handle is bound exactly when it has an attribute store |
| Attributes.Attribute.Size | include/ringmesh/basic/attributes.h:904-907 | `size()`: the bound store's item count |
| Attributes.Attribute.Manager | include/ringmesh/basic/attributes.h:913-916 | `manager()`: the manager the handle is bound to |
| Attributes.Attribute.Value | include/ringmesh/basic/attributes.h:993-1007 | item `i` of the bound store, for `i < size()` as the assertion demands |
| Attributes.Attribute.IsDefined | include/ringmesh/basic/attributes.h:892-898 | true exactly when `name` is bound and holds this handle's element type |
| Attributes.BoolAttribute.constructor | include/ringmesh/basic/attributes.h:1043-1045 | an unbound handle onto stores of bytes of size 1 |
| Attributes.BoolAttribute.Value | include/ringmesh/basic/attributes.h:1164-1172 | the accessor's conversion to `bool` (1074-1077, 1105-1108): true exactly when byte `i` is not zero |
| Attributes.BoolAttribute.SetValue | include/ringmesh/basic/attributes.h:1179-1182 | item `i` becomes `Byte( x )` and reads back as `x`; nothing else changes |
| Attributes.BoolAttribute.SetValueByte | include/ringmesh/basic/attributes.h:1174-1177 | the byte goes through `operator=( bool )`: item `i` becomes 1 when it is not zero and 0 when it is |
| Attributes.BoolAttribute.CopyElement | include/ringmesh/basic/attributes.h:1136-1157 | the raw byte of item `from` of the source, possibly this attribute, is copied to item `to` |
| Attributes.BoolAttribute.Fill | include/ringmesh/basic/attributes.h:1188-1195 | every byte becomes `Byte( val )` |
| Attributes.BoolAttribute.SetConstantValue | include/ringmesh/basic/attributes.h:865-869 | on `Attribute< bool >` the constant store's one item is 1 or 0 |
| ScalarAdapters.FindFirst | include/ringmesh/basic/attributes.h:1372-1380 | `find( '[' )`: none exactly when the character is absent, otherwise its first position |
| ScalarAdapters.DecimalRoundTrip | include/ringmesh/basic/attributes.h:1382-1390 | the decimal digits of `k` parse back to `k` |
| ScalarAdapters.IndexSuffix | include/ringmesh/basic/attributes.h:1382-1390 | an index other than `NO_ID` is the decimal value of the digits before a final `]`; any other suffix gives `NO_ID`, which is the model's own choice since the header documents only well-formed names |
| ScalarAdapters.AttributeBaseName | include/ringmesh/basic/attributes.h:1372-1380 | the name up to its first `[`, and the whole name when it has none |
| ScalarAdapters.AttributeElementIndex | include/ringmesh/basic/attributes.h:1382-1390 | 0 for a name without `[`, as documented |
| ScalarAdapters.FirstBracket | include/ringmesh/basic/attributes.h:1372-1390 | for `base[rest`, the base name is `base` and the index is parsed from `rest` |
| ScalarAdapters.CompoundNameRoundTrip | include/ringmesh/basic/attributes.h:1372-1390 | `base[k]` parses back to `base` and `k` |
| ScalarAdapters.ElementIndexFromSuffix | include/ringmesh/basic/attributes.h:1382-1390 | a well-formed index is the decimal value of the digits between `[` and the closing `]` |
| ScalarAdapters.DocumentedExamples | include/ringmesh/basic/attributes.h:1372-1390 | "foobar[5]" gives "foobar" and 5; "foobar" gives "foobar" and 0 |
| ScalarAdapters.MalformedIndex | include/ringmesh/basic/attributes.h:1372-1390 | the model's own choice for names the header leaves undocumented: "foobar[x]" and "foobar[]" give index `NO_ID`, and "foobar[x]" still has base name "foobar" |
| ScalarAdapters.ElementSlot | include/ringmesh/basic/attributes.h:1407-1414 | the slot read is `i * multiplier + element_index` when that fits in `index_t` |
| ScalarAdapters.ElementSlotsDistinct | include/ringmesh/basic/attributes.h:1407-1414 | distinct (item, component) pairs with components below the multiplier read distinct slots |
| ScalarAdapters.ReadOnlyScalarAttributeAdapter.constructor | include/ringmesh/basic/attributes.h:1249-1254 | the adapter is bound exactly when the base name is bound, with the parsed element index |
| ScalarAdapters.ReadOnlyScalarAttributeAdapter.BindIfIsDefined | include/ringmesh/basic/attributes.h:1278-1288 | the adapter is bound exactly when the base name is bound, to its store, with the parsed element index |
| ScalarAdapters.ReadOnlyScalarAttributeAdapter.Unbind | include/ringmesh/basic/attributes.h:1270-1276 | the adapter is unbound, its element index is `index_t( -1 )` and its size 0 |
| ScalarAdapters.ReadOnlyScalarAttributeAdapter.Size | include/ringmesh/basic/attributes.h:1321-1324 | the bound store's item count, 0 when unbound |
| ScalarAdapters.ReadOnlyScalarAttributeAdapter.IsDefined | include/ringmesh/basic/attributes.h:1314-1315 | true exactly when the base name of `name` is bound |
| ScalarAdapters.ScalarsLength | include/ringmesh/basic/attributes.h:1407-1414 | the raw scalar buffer of items with `d` components each holds `|items| * d` scalars |
| ScalarAdapters.ScalarSlot | include/ringmesh/basic/attributes.h:1407-1414 | scalar `i * d + e` of that buffer is component `e` of item `i` |
| ScalarAdapters.ElementSlotInBuffer | include/ringmesh/basic/attributes.h:1407-1414 | with `d` components per item, `e < d` and `i` an item, the slot read lies inside the buffer, even after a wrap-around; without one it holds component `e` of item `i` |
| ScalarAdapters.ReadOnlyScalarAttributeAdapter.GetElement | include/ringmesh/basic/attributes.h:1407-1414 | reads scalar `i * multiplier + element_index` of the raw buffer; when every item has `multiplier` components and the element index is below it, that is component `element_index` of item `i` |
| ScalarAdapters.ScalarAdapterReadsComponent | include/ringmesh/basic/attributes.h:1407-1414 | under the source's own assertions (bound, `i < size()`) and a uniform layout, the slot lies in the buffer and the adapter on "foo[e]" reads component `e` of item `i`, the coordinate the name selects (1244-1247) |
| ScalarAdapters.ScalarAdapterReadsItem | include/ringmesh/basic/attributes.h:1407-1414 | on a plain name with multiplier 1, the slot lies in the buffer and the adapter reads item `i` itself |
| ScalarAdapters.ReadOnlyScalarAttributeAdapter.IsBound | include/ringmesh/basic/attributes.h:1261-1264 | the adapter is bound exactly when it has a store |
| Common.Range.constructor | include/ringmesh/basic/common.h:209-214 | both bounds are cast to `index_t` |
| Common.Range.UpTo | include/ringmesh/basic/common.h:216-220 | the counter starts at 0 |
| Common.Range.Copy | include/ringmesh/basic/common.h:207-247 | a copy of the range, with the same counter and bound |
| Common.Range.Begin | include/ringmesh/basic/common.h:222-225 | `begin()` is the range itself |
| Common.Range.End | include/ringmesh/basic/common.h:226-229 | `end()` is the range itself |
| Common.Range.NotEqual | include/ringmesh/basic/common.h:231-234 | `operator!=` ignores its argument: the loop goes on while the counter is below the bound |
| Common.Range.Current | include/ringmesh/basic/common.h:239-242 | `operator*` is the counter |
| Common.Range.Increment | include/ringmesh/basic/common.h:235-238 | the counter goes up by one, modulo 2^32; below the bound it is plain addition |
| Common.Visit | include/ringmesh/basic/common.h:207-247 | a range-for visits `begin, begin + 1, …, end - 1`, and nothing when `end <= begin` |
| Common.VisitUpTo | include/ringmesh/basic/common.h:216-220 | `range( n )` visits `0 … n-1` |
| Common.VisitExamples | include/ringmesh/basic/common.h:209-247 | `range( 5, 2 )` visits nothing; `range( -5, 0 )` starts from 2^32 - 5, which is not below 0, so it visits nothing either |
| Common.NewException | include/ringmesh/basic/common.h:159-165 | the exception keeps the category and the concatenated messages |
| Common.CategoryKept | include/ringmesh/basic/common.h:159-173 | `category()` gives back the category the exception was built with |
| Common.ConcatenationInOrder | include/ringmesh/basic/common.h:176-189 | the message is as long as all parts together and holds part `k` at the sum of the earlier parts' lengths |
| Common.ConcatenationSplits | include/ringmesh/basic/common.h:176-189 | concatenating two lists of parts is concatenating their messages |
| Scenarios.WeightedManager | include/ringmesh/basic/attributes.h:794-810 | binding "weight" on a manager of three items creates a store of three items |
| Scenarios.SharedStore | include/ringmesh/basic/attributes.h:794-810 | two handles on one name share a store: a value written through one is read through the other |
| Scenarios.UnbindThenDestroy | include/ringmesh/basic/attributes.h:778-861 | unbinding keeps the attribute in the manager; destroying removes it |
| Scenarios.ConstantAttribute | include/ringmesh/basic/attributes.h:865-869 | after `set_constant_value( 9 )` the attribute has one item, 9 |
| Scenarios.FlagManager | include/ringmesh/basic/attributes.h:1031-1045 | a boolean attribute on a manager of two items has two bytes |
| Scenarios.BoolAttributeValues | include/ringmesh/basic/attributes.h:1174-1182 | a boolean reads back what was written, and the byte 5 is stored as 1 |
| Scenarios.CreateVectorAttributeAsWrittenExample | include/ringmesh/basic/attributes.h:837-847 | the as-written `create_vector_attribute` hands over an attribute store with no store |
| Scenarios.WeightIsPlain | include/ringmesh/basic/attributes.h:1372-1390 | "weight" has base name "weight" and element index 0 |
| Scenarios.AdapterReadsItem | include/ringmesh/basic/attributes.h:1249-1414 | an adapter on "weight" reads the value written through an `Attribute<int>` |
| Scenarios.PointManager | include/ringmesh/basic/attributes.h:794-810 | binding "pos" on a manager of two points and writing point 1 gives a store of two items whose item 1 is (7, 8, 9) |
| Scenarios.AdapterReadsCoordinate | include/ringmesh/basic/attributes.h:1407-1414 | an adapter built on "pos[1]" (1249-1254) with 3 scalars per point reads slot 4, the y coordinate 8 of point 1 |
| Scenarios.AdapterComponentAndMissing | include/ringmesh/basic/attributes.h:1249-1324 | "weight[2]" selects component 2; an adapter on an unbound name is unbound with size 0 |

## Left out

- Logging: `Logger::warn` calls are not modelled. Their branches are, for example the constant store's resize, which only warns.
- Assertions: `ringmesh_assert` becomes a `requires` of the member that asserts.
- Raw data: `data()` and `element( i )` are not modelled as pointers. What is written through them is modelled as `Stores.Store.SetItem`.
- Element types:
  - Element types are type parameters and the mangled `typeid( T ).name()` is an opaque string. `sizeof( T )` and `T()` are passed to the handles as constructor arguments.
  - A manager's stores all have one element type, the type parameter of the manager class.
  - A manager that mixes element types is not modelled, and neither are the `dynamic_cast`s that would select between them.
- Manager.AttributesManager.AttributeNames: the source returns the names in map order; the model promises each name once, in an unspecified order.
- Manager.AttributesManager.Compress: the body of the manager's `compress` is not part of the header (731), so the new `nb_items()` is the model's own choice: `StoreModel.CompressedSize`, one past the largest kept target. That equals the number of kept items only for a compacting map, one that numbers the kept items 0, 1, 2, … in order (`StoreModel.CompactingSizeIsKeptCount`).
- Manager.AttributesManager.Copy: modelled as cloning every store, binding the clones, then resizing. The body of `copy` is not part of the header.
- Attributes.Attribute.Fill: the source loop bound is `superclass::nb_elements()` and it writes through the const `operator[]`. The model is the intended loop over `size()` writing each item.
- Attributes.Attribute.SetConstantValue: the explicit ownership bookkeeping of the C++ pointers is not modelled, because Dafny has no manual memory management.
- Destructors and `delete` are not modelled, for the same reason.
- `Attribute( manager, name )` constructors: modelled as construction followed by `Bind`. The same goes for `ReadOnlyScalarAttributeAdapter`'s constructor and `bind_if_is_defined`.
- The adapter (ScalarAdapters.ReadOnlyScalarAttributeAdapter.constructor, ScalarAdapters.ReadOnlyScalarAttributeAdapter.BindIfIsDefined and ScalarAdapters.ReadOnlyScalarAttributeAdapter.IsDefined are weaker than the source for these reasons):
  - the conversion to `double` is not modelled; `GetElement` returns the stored value, and `IsDefined` does not check that the element type "can be converted to double" as its documentation (1305-1307) says;
  - the element-type checks against the stored type, `is_integer_like_attribute` and `bind_if_is_defined`'s check that the element index is below the number of components are not modelled;
  - `nb_scalar_elements_per_item` is not modelled: the multiplier is a parameter;
  - `ReadOnlyScalarAttributeAdapterFactory`, which builds adapters by element type, is not modelled.
- ScalarAdapters.ReadOnlyScalarAttributeAdapter.GetElement: the raw buffer is modelled as the items' scalar components laid end to end (`Scalars`), with the component list of a `T` passed as a parameter instead of `reinterpret_cast`. The call requires the slot to lie in that buffer, which `ScalarAdapters.ElementSlotInBuffer` proves from the source's own assertions whenever the layout is uniform and the element index is below the multiplier; for any other multiplier the source's read is undefined behaviour.
- ScalarAdapters.AttributeElementIndex: the header documents only well-formed names. For a name whose '[' is not followed by a decimal number below 2^32 and a final ']', the result `NO_ID` is the model's own choice, not something lines 1382-1390 state; `ScalarAdapters.IndexSuffix` and `ScalarAdapters.MalformedIndex` state that choice.
- AttributeStores.AttributeStore.CreateAttributeStoreByElementTypeName: `create_attribute_store` is pure virtual in the header (attributes.h:330) and its implementations are not part of this model. A creator is modelled as building what `bind` builds for a new attribute (799-804): an attribute store holding an empty vector store of the registered element type id and size; `T()` is passed in as `zero`.
- ScalarAdapters.ReadOnlyScalarAttributeAdapter.ElementIndex and AttributeStore: plain accessors, with no contract of their own.
- Attributes.BoolAttribute.CopyElement: the self-assignment check of the accessor `operator=` is not a separate branch, since copying a byte onto itself changes nothing.
- Stores.Store.Constant: the default `constant_` of a new constant store is left unspecified (any value), because `T()` of a non-class `T` is not initialised by a member declaration.
- Common.StringConcatener: `GEO::String::to_string` of arbitrary arguments is not modelled; the messages are strings already.
- Common.Category has no contract of its own; `Common.CategoryKept` states it.
- Threads and the static initialisation order of the registry's maps are not modelled.

## Findings

| source | as written | input that shows it | evidently intended | confidence | as-written member | corrected member |
|---|---|---|---|---|---|---|
| include/ringmesh/basic/attributes.h:185-188 | `VectorStore::clear` empties `vector_` but leaves `size_` as it was | a vector store of 3 items, then `clear()`: `size()` is 3 while no item exists | `size_` reset to 0, as "Resizes this AttributeStore to 0" (371-373) says | not executed | Stores.Store.ClearAsWritten, Stores.ClearAsWrittenExample | Stores.Store.Clear |
| include/ringmesh/basic/attributes.h:428-437 | `clone()` passes the mangled `element_typeid_name()` to the lookup keyed by type name | `double` registered as element type name "double" with id "d": the lookup asks for "d", which is not a registered name | turn the id into the type name with `element_type_name_by_element_typeid_name` first | not executed | AttributeStores.AttributeStore.CloneAsWritten, AttributeStores.CloneAsWrittenExample | AttributeStores.AttributeStore.Clone |
| include/ringmesh/basic/attributes.h:545-568 | the same-type check runs only when the incoming id is already known, so a known name is re-pointed to a new id with only the "already registered" warning (551-552); the same-type assertion is skipped | register "double" as "d", then "double" as "x": "d" still leads to "double", whose id is now "x" | refuse a known name under a different id whether or not that id is known | not executed | Registry.TypeRegistry.RegisterAttributeCreatorAsWritten, Registry.RegisterAsWrittenExample | Registry.TypeRegistry.RegisterAttributeCreator |
| include/ringmesh/basic/attributes.h:837-847 | `create_vector_attribute` binds a `new AttributeStore()` that never receives a store, and ignores `nb_component` | any call: the bound attribute store's `get_store()` dereferences a null store | bind an attribute store holding a new vector store, as `bind` does (799-804) | not executed | Attributes.Attribute.CreateVectorAttributeAsWritten, Scenarios.CreateVectorAttributeAsWrittenExample | Attributes.Attribute.CreateVectorAttribute |
| include/ringmesh/basic/attributes.h:198-201 | `VectorStore::compress` returns at once and keeps every item | a store of 2 items compressed with `[ 0, NO_ID ]`: it still holds 2 items while the manager's `nb_items()` becomes 1 | the single in-place pass documented in 401-417, then a resize to the compressed size | not executed | Stores.Store.CompressAsWritten, Stores.CompressAsWrittenExample | Stores.Store.Compress |
