/**
 * `AttributesManager` (include/ringmesh/basic/attributes.h, lines 587-750):
 * a set of attribute stores bound to names, all of which describe the same
 * number of items `nb_items_`. Only declarations and their documentation are
 * part of the header; the bodies here are what that documentation states.
 */
module Manager {
  import opened Types
  import opened StoreModel
  import opened Stores
  import opened Registry
  import opened AttributeStores

  /**
   * The structural operations the manager forwards to every store it owns:
   * `resize`, `clear`, `apply_permutation`, `compress` and `copy_item`.
   */
  datatype StoreOp =
    | ResizeOp(newSize: Index)
    | ClearOp
    | PermuteOp(perm: seq<Index>)
    | CompressOp(old2new: seq<Index>)
    | CopyItemOp(to: Index, from: Index)

  /** What each operation demands of a well-formed store it is applied to. */
  predicate Applicable<T>(v: StoreView<T>, op: StoreOp) {
    && v.Valid()
    && match op
       case PermuteOp(perm) => v.kind == VectorKind ==> IsPermutation(perm, v.size)
       case CompressOp(old2new) => v.kind == VectorKind ==> |old2new| == v.size && IsCompressMap(old2new)
       case CopyItemOp(to, from) => v.kind == VectorKind ==> to < v.size && from < v.size
       case _ => true
  }

  /** A store after `op`. */
  function Apply<T>(v: StoreView<T>, op: StoreOp): (r: StoreView<T>)
    requires Applicable(v, op)
    ensures r.Valid() && r.kind == v.kind && r.typeId == v.typeId && r.elementSize == v.elementSize
  {
    match op
    case ResizeOp(n) => Resized(v, n)
    case ClearOp => Cleared(v)
    case PermuteOp(perm) => PermutedView(v, perm)
    case CompressOp(old2new) => CompressedView(v, old2new)
    case CopyItemOp(to, from) => CopiedItemView(v, to, from)
  }

  /** `op` on one store, by the store's own method. */
  method ApplyToStore<T(0)>(s: Store<T>, op: StoreOp)
    requires Applicable(s.View(), op)
    modifies s
    ensures s.Valid() && s.View() == Apply(old(s.View()), op)
  {
    match op
    case ResizeOp(n) => s.Resize(n);
    case ClearOp => s.Clear();
    case PermuteOp(perm) => s.ApplyPermutation(perm);
    case CompressOp(old2new) => s.Compress(old2new);
    case CopyItemOp(to, from) => s.CopyItem(to, from);
  }

  /**
   * The number of items every vector store has after `op`, given that each
   * had `n` before: the manager's new `nb_items_`.
   */
  function SizeAfter(op: StoreOp, n: nat): nat {
    match op
    case ResizeOp(s) => s
    case ClearOp => 0
    case CompressOp(old2new) => CompressedSize(old2new)
    case _ => n
  }

  /** Every vector store of `views` has `n` items. */
  ghost predicate AllHaveSize<T>(views: map<string, StoreView<T>>, n: nat) {
    forall k :: k in views && views[k].kind == VectorKind ==> views[k].size == n
  }

  /** Replacing one view by a constant one, or by one of the common size, keeps all sizes equal. */
  lemma SizedUpdate<T>(views: map<string, StoreView<T>>, name: string, v: StoreView<T>, n: nat)
    requires AllHaveSize(views, n) && (v.kind == ConstantKind || v.size == n)
    ensures AllHaveSize(views[name := v], n)
  {
  }

  ghost predicate AllApplicable<T>(m: map<string, StoreView<T>>, op: StoreOp) {
    forall k :: k in m ==> Applicable(m[k], op)
  }

  /** Every store of `m` after `op`. */
  ghost function ApplyTo<T>(m: map<string, StoreView<T>>, op: StoreOp): (r: map<string, StoreView<T>>)
    requires AllApplicable(m, op)
    ensures r.Keys == m.Keys
    ensures forall k :: k in m ==> r[k] == Apply(m[k], op)
  {
    map k | k in m :: Apply(m[k], op)
  }

  /**
   * The loop each structural operation of the manager runs: `op` is applied
   * to the store of every attribute store of `holders`, one name at a time.
   * `owner` maps each of those stores, and none of the attribute stores, to
   * the one name it is bound to, so each store keeps the result of its own
   * step.
   */
  method ApplyToStores<T(0)>(holders: map<string, AttributeStore<T>>, op: StoreOp,
                             ghost before: map<string, StoreView<T>>, ghost owner: map<object, string>)
    requires forall n :: n in holders ==>
               holders[n] !in owner && holders[n].store != null && holders[n].store in owner && owner[holders[n].store] == n
    requires before.Keys == holders.Keys && AllApplicable(before, op)
    requires forall n :: n in holders ==> holders[n].store.View() == before[n]
    modifies owner.Keys
    ensures forall n :: n in holders ==> holders[n].store.View() == Apply(before[n], op)
  {
    var names := holders.Keys;
    var done: set<string> := {};
    while names - done != {}
      invariant done <= names
      invariant forall n :: n in holders ==> holders[n].store.View() == if n in done then Apply(before[n], op) else before[n]
      decreases names - done
    {
      var n :| n in names - done;
      ApplyToStore(holders[n].store, op);
      done := done + {n};
    }
    SameKeys(done, names);
  }

  /**
   * `clones` are attribute stores `holders` whose stores `own` maps to their
   * names, one store per name, in the states `source`.
   */
  ghost predicate Cloned<T(0)>(clones: map<string, AttributeStore<T>>, holders: set<object>, own: map<object, string>,
                               source: map<string, StoreView<T>>)
    reads holders, own.Keys
  {
    && holders !! own.Keys
    && forall n :: n in clones ==>
         && clones[n] in holders && clones[n].store != null && clones[n].store in own && own[clones[n].store] == n
         && n in source && clones[n].store.View() == source[n] && source[n].Valid()
  }

  /** One more clone, new to both sets, bound under a new name. */
  lemma ClonedOneMore<T(0)>(clones: map<string, AttributeStore<T>>, holders: set<object>, own: map<object, string>,
                            source: map<string, StoreView<T>>, n: string, c: AttributeStore<T>)
    requires Cloned(clones, holders, own, source) && n !in clones
    requires c !in holders && c !in own && c.store != null && c.store !in holders && c.store !in own
    requires n in source && c.store.View() == source[n] && source[n].Valid()
    ensures Cloned(clones[n := c], holders + {c}, own[c.store := n], source)
  {
  }

  lemma SameKeys<K>(a: set<K>, b: set<K>)
    requires a <= b && b - a == {}
    ensures a == b
  {
    forall x | x in b
      ensures x in a
    {
      assert x !in b - a;
    }
  }

  /**
   * Resizing stores that all have `n` items to `n` items changes none of
   * them: binding stores of the manager's own size keeps their contents.
   */
  lemma ResizeToCommonSizeKeeps<T>(m: map<string, StoreView<T>>, n: Index)
    requires forall k :: k in m ==> m[k].Valid()
    requires AllHaveSize(m, n)
    ensures ApplyTo(m, ResizeOp(n)) == m
  {
    forall k | k in m
      ensures Resized(m[k], n) == m[k]
    {
      ResizeToOwnSizeKeepsStore(m[k]);
    }
  }

  /**
   * "All attributes stored in an AttributesManager have the same number of
   * items" (attributes.h:619-622) is kept by every structural operation:
   * when each vector store has `n` items and `op` is applied to all of them,
   * each has `SizeAfter(op, n)`.
   */
  lemma {:induction false} ApplyKeepsSizesAgreeing<T>(m: map<string, StoreView<T>>, op: StoreOp, n: nat)
    requires AllApplicable(m, op)
    requires !op.ResizeOp? && !op.ClearOp? ==> AllHaveSize(m, n)
    requires op.CompressOp? ==> n == |op.old2new|
    ensures AllHaveSize(ApplyTo(m, op), SizeAfter(op, n))
  {
    var r := ApplyTo(m, op);
    forall k | k in r && r[k].kind == VectorKind
      ensures r[k].size == SizeAfter(op, n)
    {
      assert r[k] == Apply(m[k], op);
    }
  }
  class AttributesManager<T(0)> {
    /** `nb_items_`. */
    var nbItems: Index
    /** `attributes_`: the bound attribute stores, owned by the manager. */
    var attributes: map<string, AttributeStore<T>>
    /** The state of the store bound to each name. */
    ghost var views: map<string, StoreView<T>>
    /** The attribute stores the manager owns or has owned. */
    ghost var Holders: set<object>
    /** The stores owned by those attribute stores, each with the name it is bound to. */
    ghost var owner: map<object, string>

    /** `AttributesManager()`: no attribute and no item. */
    constructor ()
      ensures nbItems == 0 && attributes == map[] && views == map[] && Holders == {} && owner == map[] && Valid() && SizesAgree()
    {
      nbItems := 0;
      attributes := map[];
      views := map[];
      Holders := {};
      owner := map[];
    }

    /** `o` is neither the manager nor anything it owns or has owned. */
    ghost predicate Unowned(o: object)
      reads this`Holders, this`owner
    {
      o != this && o !in Holders && o !in owner
    }

    /**
     * Every bound attribute store owns a store, and no store (hence no
     * attribute store) is shared by two names: the manager owns each of them.
     */
    ghost predicate Owned()
      reads this`attributes, this`Holders, this`owner, Holders
    {
      && this !in Holders && this !in owner && Holders !! owner.Keys
      && forall n :: n in attributes ==>
           attributes[n] in Holders && attributes[n].store != null && attributes[n].store in owner && owner[attributes[n].store] == n
    }

    /** The store bound to each name is in the state `m` gives it. */
    ghost predicate Mirrors(m: map<string, StoreView<T>>)
      requires Owned()
      reads this`attributes, this`Holders, this`owner, Holders, owner.Keys
    {
      m.Keys == attributes.Keys && forall n :: n in attributes ==> attributes[n].store.View() == m[n]
    }

    /** The manager owns its stores, `views` is their state, and each is well formed. */
    ghost predicate Valid()
      reads this`attributes, this`views, this`Holders, this`owner, Holders, owner.Keys
    {
      Owned() && Mirrors(views) && forall n :: n in views ==> views[n].Valid()
    }

    /**
     * Every vector store has `nb_items_` items (a constant store always has
     * exactly one).
     */
    ghost predicate SizesAgree()
      reads this`views, this`nbItems
    {
      AllHaveSize(views, nbItems)
    }

    /** `nb_attributes()` (attributes.h:607-610): the number of names, cast to `index_t`. */
    function NbAttributes(): (r: Index)
      reads this
      ensures |attributes| < INDEX_LIMIT ==> r == |attributes|
      ensures (r - |attributes|) % INDEX_LIMIT == 0
    {
      ToIndex(|attributes|)
    }

    /** `attribute_names()` (attributes.h:612-617): every bound name, once each. */
    method AttributeNames() returns (names: seq<string>)
      ensures |names| == |attributes|
      ensures forall n :: n in names <==> n in attributes
      ensures forall i, j :: 0 <= i < j < |names| ==> names[i] != names[j]
    {
      names := [];
      var rest := attributes.Keys;
      while rest != {}
        invariant rest <= attributes.Keys
        invariant forall n :: n in names <==> n in attributes && n !in rest
        invariant forall i, j :: 0 <= i < j < |names| ==> names[i] != names[j]
        invariant |names| + |rest| == |attributes|
        decreases rest
      {
        var n :| n in rest;
        names := names + [n];
        rest := rest - {n};
      }
    }

    /** `nb_items()` (attributes.h:619-628): the number of items of every vector attribute. */
    function NbItems(): (r: Index)
      reads this
      ensures SizesAgree() ==> AllHaveSize(views, r)
    {
      nbItems
    }

    /**
     * The loop each structural operation runs: `op` is applied to every
     * bound store, one name at a time, the names are left as they are, and
     * `nb_items_` becomes `newNbItems`.
     */
    method ApplyToAll(op: StoreOp, newNbItems: Index)
      requires Valid() && AllApplicable(views, op)
      modifies this, owner.Keys
      ensures attributes == old(attributes) && Holders == old(Holders) && owner == old(owner)
      ensures nbItems == newNbItems && Valid() && views == ApplyTo(old(views), op)
    {
      ghost var before := views;
      ApplyToStores(attributes, op, views, owner);
      OwnedKept();
      SetViews(ApplyTo(before, op), newNbItems);
    }

    /** Records that the stores are in the states `m`, and sets `nb_items_` to `nb`. */
    method SetViews(ghost m: map<string, StoreView<T>>, nb: Index)
      requires Owned() && Mirrors(m) && forall n :: n in m ==> m[n].Valid()
      modifies this
      ensures attributes == old(attributes) && Holders == old(Holders) && owner == old(owner)
      ensures views == m && nbItems == nb && Valid()
    {
      views := m;
      nbItems := nb;
    }

    /** Neither the manager's fields nor any attribute store changed: it still owns what it owned. */
    twostate lemma OwnedKept()
      requires old(Owned()) && unchanged(this) && unchanged(old(Holders))
      ensures Owned()
    {
    }

    /** No bound store changed: they are still in the states `cur`. */
    twostate lemma StoresUnchanged(cur: map<string, StoreView<T>>)
      requires old(Owned()) && old(Mirrors(cur)) && unchanged(this) && unchanged(old(Holders)) && unchanged(old(owner).Keys)
      ensures Owned() && Mirrors(cur)
    {
    }

    /** `resize( new_size )` (attributes.h:630-636): every store is resized and `nb_items()` becomes `new_size`. */
    method Resize(newSize: Index)
      requires Valid()
      modifies this, owner.Keys
      ensures attributes == old(attributes) && Holders == old(Holders) && owner == old(owner)
      ensures nbItems == newSize && Valid() && SizesAgree() && views.Keys == old(views).Keys
      ensures views == ApplyTo(old(views), ResizeOp(newSize))
      ensures forall n :: n in views ==> views[n] == Resized(old(views)[n], newSize)
    {
      ApplyKeepsSizesAgreeing(views, ResizeOp(newSize), nbItems);
      ApplyToAll(ResizeOp(newSize), newSize);
    }

    /**
     * `clear( keep_attributes )` (attributes.h:638-644): with `true` every
     * store is cleared and every name kept; with `false` every attribute is
     * removed. Either way `nb_items()` becomes 0.
     */
    method Clear(keepAttributes: bool)
      requires Valid()
      modifies this, if keepAttributes then owner.Keys else {}
      ensures nbItems == 0 && Valid() && SizesAgree() && Holders == old(Holders) && owner == old(owner)
      ensures keepAttributes ==> attributes == old(attributes) && views.Keys == old(views).Keys
      ensures keepAttributes ==> forall n :: n in views ==> views[n] == Cleared(old(views)[n])
      ensures !keepAttributes ==> attributes == map[] && views == map[]
    {
      if keepAttributes {
        ApplyKeepsSizesAgreeing(views, ClearOp, nbItems);
        ApplyToAll(ClearOp, 0);
      } else {
        attributes := map[];
        views := map[];
        nbItems := 0;
      }
    }

    /**
     * `bind_attribute_store( name, as )` (attributes.h:646-655): `as` becomes
     * owned by the manager under the unbound `name`, resized to `nb_items()`
     * so that all attributes keep the same number of items.
     */
    method BindAttributeStore(name: string, attrStore: AttributeStore<T>)
      requires Valid() && name !in attributes
      requires attrStore.Valid() && Unowned(attrStore) && Unowned(attrStore.store)
      modifies this, attrStore.store
      ensures attributes == old(attributes)[name := attrStore] && nbItems == old(nbItems)
      ensures Holders == old(Holders) + {attrStore} && owner == old(owner)[attrStore.store := name]
      ensures Valid() && views == old(views)[name := Resized(old(attrStore.store.View()), nbItems)]
      ensures old(SizesAgree()) ==> SizesAgree()
    {
      attrStore.Resize(nbItems);
      StoresUnchanged(views);
      Insert(name, attrStore);
    }

    /** `attributes_[ name ] = as`, for an unbound `name` and a store the manager does not own yet. */
    method Insert(name: string, attrStore: AttributeStore<T>)
      requires Valid() && name !in attributes
      requires attrStore.Valid() && Unowned(attrStore) && Unowned(attrStore.store)
      modifies this
      ensures attributes == old(attributes)[name := attrStore] && nbItems == old(nbItems)
      ensures Holders == old(Holders) + {attrStore} && owner == old(owner)[attrStore.store := name]
      ensures Valid() && views == old(views)[name := attrStore.store.View()]
    {
      attributes := attributes[name := attrStore];
      Holders := Holders + {attrStore};
      owner := owner[attrStore.store := name];
      InsertedOwned(attrStore);
      SetViews(views[name := attrStore.store.View()], nbItems);
    }

    /**
     * After the attribute store `a`, which was not owned, is bound to a name
     * that was not bound, the manager owns `a` and its store under that name.
     */
    twostate lemma InsertedOwned(a: AttributeStore<T>)
      requires old(Valid()) && a.store != null && a.store in owner
      requires var name := owner[a.store];
        old(name !in attributes) && old(a.store) == a.store && old(Unowned(a)) && old(Unowned(a.store)) && a.store.Valid() &&
        attributes == old(attributes)[name := a] && Holders == old(Holders) + {a} && owner == old(owner)[a.store := name] &&
        views == old(views) && unchanged(old(Holders)) && unchanged(old(owner).Keys)
      ensures Owned() && Mirrors(views[owner[a.store] := a.store.View()])
    {
    }

    /** `holder` is the attribute store bound to some name (the name `owner` gives its store). */
    ghost predicate Binds(holder: AttributeStore<T>)
      reads this`attributes, this`Holders, this`owner, Holders
    {
      holder in Holders && holder.store != null && holder.store in owner &&
      owner[holder.store] in attributes && attributes[owner[holder.store]] == holder
    }

    /** The store of a bound attribute store is well formed and in the state `views` records for its name. */
    lemma BoundView(holder: AttributeStore<T>)
      requires Valid() && Binds(holder)
      ensures holder.store.Valid() && holder.store.View() == views[owner[holder.store]]
    {
    }

    /**
     * A write through `data()` into the store of the bound `holder`
     * (attributes.h:985, 1127): item `i` becomes `value`, and nothing else
     * changes.
     */
    method WriteItem(holder: AttributeStore<T>, i: nat, value: T)
      requires Valid() && Binds(holder) && i < |holder.store.items|
      modifies this, holder.store
      ensures attributes == old(attributes) && Holders == old(Holders) && owner == old(owner) && nbItems == old(nbItems)
      ensures holder.store.size == old(holder.store.size) && holder.store.items == old(holder.store.items)[i := value]
      ensures Valid() && views == old(views)[owner[holder.store] := old(views[owner[holder.store]]).(items := old(holder.store.items)[i := value])]
    {
      ghost var name := owner[holder.store];
      ghost var cur := views;
      holder.store.SetItem(i, value);
      assert Owned() && Mirrors(cur[name := holder.store.View()]);
      SetViews(cur[name := holder.store.View()], nbItems);
    }

    /**
     * `set_store( s )` on the bound `holder` (attributes.h:352-355, reached
     * from `set_constant_value`, 865-869): the store bound to its name
     * becomes `s`, which the manager now owns.
     */
    method ReplaceStore(holder: AttributeStore<T>, s: Store<T>)
      requires Valid() && Binds(holder) && s.Valid() && Unowned(s)
      modifies this, holder
      ensures holder.store == s && attributes == old(attributes) && Holders == old(Holders) && nbItems == old(nbItems)
      ensures owner == old(owner)[s := old(owner[holder.store])]
      ensures Valid() && views == old(views)[old(owner[holder.store]) := s.View()]
      ensures old(SizesAgree()) && (s.kind == ConstantKind || s.size == nbItems) ==> SizesAgree()
    {
      ghost var name := owner[holder.store];
      ghost var sized := SizesAgree();
      holder.SetStore(s);
      owner := owner[s := name];
      ReplacedOwned(s);
      if sized && (s.kind == ConstantKind || s.size == nbItems) {
        SizedUpdate(views, name, s.View(), nbItems);
      }
      SetViews(views[name := s.View()], nbItems);
    }

    /**
     * After the attribute store bound to some name takes the store `s`, which
     * was not owned, the manager owns `s` under that name.
     */
    twostate lemma ReplacedOwned(s: Store<T>)
      requires old(Valid()) && s in owner && owner[s] in attributes
      requires var name := owner[s]; var holder := attributes[name];
        old(name in attributes && attributes[name] == holder) && holder.store == s &&
        old(Unowned(s)) && s.Valid() && unchanged(old(Holders) - {holder}) && unchanged(old(owner).Keys) &&
        attributes == old(attributes) && Holders == old(Holders) && owner == old(owner)[s := name] && views == old(views)
      ensures Owned() && Mirrors(views[owner[s] := s.View()])
    {
    }

    /**
     * `find_attribute_store( name )` (attributes.h:657-672): the store bound
     * to `name`, or null when there is none.
     */
    function FindAttributeStore(name: string): (r: AttributeStore?<T>)
      reads this
      ensures r == null <==> name !in attributes
      ensures r != null ==> r == attributes[name]
    {
      if name in attributes then attributes[name] else null
    }

    /** `is_defined( name )` (attributes.h:674-683): whether a store is bound to `name`. */
    function IsDefined(name: string): (r: bool)
      reads this
      ensures r <==> name in attributes
    {
      FindAttributeStore(name) != null
    }

    /** `delete_attribute_store( name )` (attributes.h:685-690): the bound `name` is removed. */
    method DeleteAttributeStore(name: string)
      requires Valid() && name in attributes
      modifies this
      ensures attributes == old(attributes) - {name} && nbItems == old(nbItems) && Holders == old(Holders) && owner == old(owner)
      ensures Valid() && views == old(views) - {name}
      ensures old(SizesAgree()) ==> SizesAgree()
    {
      attributes := attributes - {name};
      views := views - {name};
    }

    /**
     * `delete_attribute_store( as )` (attributes.h:692-697): the names are
     * searched for the one `as` is bound to, which is removed.
     */
    method DeleteAttributeStoreObject(attrStore: AttributeStore<T>)
      requires Valid() && attrStore in attributes.Values
      modifies this
      ensures attrStore.store != null && attrStore.store in owner
      ensures owner[attrStore.store] in old(attributes) && old(attributes)[owner[attrStore.store]] == attrStore
      ensures attributes == old(attributes) - {owner[attrStore.store]} && views == old(views) - {owner[attrStore.store]}
      ensures attrStore !in attributes.Values && nbItems == old(nbItems) && Holders == old(Holders) && owner == old(owner)
      ensures Valid()
      ensures old(SizesAgree()) ==> SizesAgree()
    {
      var rest := attributes.Keys;
      var n :| n in rest;
      while attributes[n] != attrStore
        invariant n in rest && rest <= attributes.Keys
        invariant exists m :: m in rest && attributes[m] == attrStore
        decreases rest
      {
        ghost var m :| m in rest && attributes[m] == attrStore;
        rest := rest - {n};
        assert m in rest;
        n :| n in rest;
      }
      DeleteAttributeStore(n);
    }

    /**
     * `apply_permutation( permutation )` (attributes.h:699-714): every store
     * is permuted; a permutation of the `nb_items()` items is required.
     */
    method ApplyPermutation(perm: seq<Index>)
      requires Valid() && SizesAgree() && IsPermutation(perm, nbItems)
      modifies this, owner.Keys
      ensures attributes == old(attributes) && nbItems == old(nbItems) && Holders == old(Holders) && owner == old(owner)
      ensures Valid() && SizesAgree() && views.Keys == old(views).Keys
      ensures forall n :: n in views ==> views[n] == PermutedView(old(views)[n], perm)
    {
      ApplyKeepsSizesAgreeing(views, PermuteOp(perm), nbItems);
      ApplyToAll(PermuteOp(perm), nbItems);
    }

    /**
     * `compress( old2new )` (attributes.h:716-731): every store is
     * compressed, and `nb_items()` becomes the compressed size (for an
     * order-preserving map, the number of kept items: lemma
     * CompactingSizeIsKeptCount).
     */
    method Compress(old2new: seq<Index>)
      requires Valid() && SizesAgree() && |old2new| == nbItems && IsCompressMap(old2new)
      modifies this, owner.Keys
      ensures attributes == old(attributes) && nbItems == CompressedSize(old2new) && Holders == old(Holders) && owner == old(owner)
      ensures Valid() && SizesAgree() && views.Keys == old(views).Keys
      ensures forall n :: n in views ==> views[n] == CompressedView(old(views)[n], old2new)
    {
      ApplyKeepsSizesAgreeing(views, CompressOp(old2new), nbItems);
      ApplyToAll(CompressOp(old2new), CompressedSize(old2new) as Index);
    }

    /**
     * `copy( rhs )` (attributes.h:733-737): the previous attributes are
     * dropped, each attribute of `rhs` is cloned and bound under its name,
     * and every clone is resized to `rhs.nb_items()`, which becomes
     * `nb_items()`. Binding resizes each store to `nb_items()`
     * (attributes.h:646-655); cloning changes nothing, so all clones are
     * made and bound first and then resized.
     */
    method Copy(rhs: AttributesManager<T>, registry: TypeRegistry)
      requires rhs != this && Valid() && rhs.Valid()
      requires registry.Consistent()
      requires forall n :: n in rhs.attributes ==> registry.ElementTypeIdNameIsKnown(rhs.attributes[n].store.typeId)
      modifies this
      ensures nbItems == old(rhs.nbItems) && attributes.Keys == old(rhs.attributes.Keys)
      ensures Valid() && SizesAgree() && forall n :: n in attributes ==> fresh(attributes[n]) && fresh(attributes[n].store)
      ensures views == ApplyTo(old(rhs.views), ResizeOp(nbItems))
      ensures old(rhs.SizesAgree()) ==> views == old(rhs.views)
    {
      ghost var source := rhs.views;
      ghost var agreed := rhs.SizesAgree();
      var nb := rhs.nbItems;
      var clones, holders, own := rhs.Clones(registry);
      Adopt(clones, holders, own, source, nb);
      if agreed {
        ResizeToCommonSizeKeeps(source, nb);
      }
    }

    /**
     * The binding and resizing steps of Copy: the manager's attributes become
     * `clones`, whose attribute stores are `holders` and whose stores, in
     * the states `source`, are `own`; then all are resized to `nb` items.
     */
    method Adopt(clones: map<string, AttributeStore<T>>, ghost holders: set<object>, ghost own: map<object, string>,
                 ghost source: map<string, StoreView<T>>, nb: Index)
      requires this !in holders && this !in own && Cloned(clones, holders, own, source) && clones.Keys == source.Keys
      modifies this, own.Keys
      ensures attributes == clones && Holders == holders && owner == own
      ensures nbItems == nb && Valid() && SizesAgree() && views == ApplyTo(source, ResizeOp(nb))
    {
      attributes, Holders, owner := clones, holders, own;
      SetViews(source, nbItems);
      Resize(nb);
    }

    /** A clone of every bound attribute store, by name, with the new objects; nothing existing changes. */
    method Clones(registry: TypeRegistry) returns (clones: map<string, AttributeStore<T>>, ghost holders: set<object>, ghost own: map<object, string>)
      requires Valid() && registry.Consistent()
      requires forall n :: n in attributes ==> registry.ElementTypeIdNameIsKnown(attributes[n].store.typeId)
      ensures clones.Keys == old(attributes.Keys)
      ensures fresh(holders) && fresh(own.Keys) && Cloned(clones, holders, own, old(views))
    {
      clones, holders, own := map[], {}, map[];
      var names := attributes.Keys;
      while names - clones.Keys != {}
        invariant clones.Keys <= names && names == attributes.Keys
        invariant fresh(holders) && fresh(own.Keys) && Cloned(clones, holders, own, old(views))
        decreases names - clones.Keys
      {
        var n :| n in names - clones.Keys;
        var c := attributes[n].Clone(registry);
        ClonedOneMore(clones, holders, own, old(views), n, c);
        clones, holders, own := clones[n := c], holders + {c}, own[c.store := n];
      }
      SameKeys(clones.Keys, names);
    }

    /**
     * `copy_item( to, from )` (attributes.h:739-745): in every store, item
     * `to` receives item `from`.
     */
    method CopyItem(to: Index, from: Index)
      requires Valid() && SizesAgree() && to < nbItems && from < nbItems
      modifies this, owner.Keys
      ensures attributes == old(attributes) && nbItems == old(nbItems) && Holders == old(Holders) && owner == old(owner)
      ensures Valid() && SizesAgree() && views.Keys == old(views).Keys
      ensures forall n :: n in views ==> views[n] == CopiedItemView(old(views)[n], to, from)
    {
      ApplyKeepsSizesAgreeing(views, CopyItemOp(to, from), nbItems);
      ApplyToAll(CopyItemOp(to, from), nbItems);
    }
  }
}
