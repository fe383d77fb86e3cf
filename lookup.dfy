/**
 * Lookup of an attraction by id across the catalog, and the resolution of the featured-id
 * list against it.
 */
module Finder {
  import opened Catalog

  /** The element is an attraction record with the given id (`a.id === id`; a number has no `id`). */
  predicate HasId(e: Element, id: int)
  {
    e.Record? && e.attraction.id == id
  }

  /** Some element of the array is a record with the given id. */
  ghost predicate Holds(items: seq<Element>, id: int)
  {
    exists j :: 0 <= j < |items| && HasId(items[j], id)
  }

  /** Some array-valued key of the catalog holds a record with the given id. */
  ghost predicate CatalogHolds(cat: Catalog, id: int)
  {
    exists k :: 0 <= k < |cat| && cat[k].value.List? && Holds(cat[k].value.items, id)
  }

  /** `Array.prototype.find` with the test `a.id === id`: the first record of the array with that id. */
  function FindIn(items: seq<Element>, id: int): (r: Option<Attraction>)
    ensures r.None? <==> !Holds(items, id)
    ensures r.Some? ==> r.value.id == id && exists j :: 0 <= j < |items| && items[j] == Record(r.value)
                                                 && forall i :: 0 <= i < j ==> !HasId(items[i], id)
  {
    if items == [] then None
    else if HasId(items[0], id) then Some(items[0].attraction)
    else
      var r := FindIn(items[1..], id);
      assert forall j :: 1 <= j < |items| ==> items[j] == items[1..][j - 1];
      r
  }

  /**
   * The first record with the given id, taking the array-valued keys in key order and each
   * array in element order; `None` when no array-valued key holds one.
   */
  function Lookup(cat: Catalog, id: int): (r: Option<Attraction>)
    ensures r.None? <==> !CatalogHolds(cat, id)
    ensures r.Some? ==> r.value.id == id
  {
    if cat == [] then None
    else if cat[0].value.List? && FindIn(cat[0].value.items, id).Some? then FindIn(cat[0].value.items, id)
    else
      var r := Lookup(cat[1..], id);
      assert forall k :: 1 <= k < |cat| ==> cat[k] == cat[1..][k - 1];
      r
  }

  /**
   * A found attraction is what `find` returns on the first array-valued key that holds the id:
   * no earlier array-valued key holds it.
   */
  lemma {:induction false} LookupFirst(cat: Catalog, id: int)
    requires Lookup(cat, id).Some?
    ensures exists k :: 0 <= k < |cat| && cat[k].value.List? && FindIn(cat[k].value.items, id) == Lookup(cat, id)
                        && forall i :: 0 <= i < k ==> !(cat[i].value.List? && Holds(cat[i].value.items, id))
  {
    if !(cat[0].value.List? && FindIn(cat[0].value.items, id).Some?) {
      LookupFirst(cat[1..], id);
      var k :| 0 <= k < |cat[1..]| && cat[1..][k].value.List? && FindIn(cat[1..][k].value.items, id) == Lookup(cat, id)
               && forall i :: 0 <= i < k ==> !(cat[1..][i].value.List? && Holds(cat[1..][i].value.items, id));
      assert cat[k + 1] == cat[1..][k];
      forall i | 0 <= i < k + 1
        ensures !(cat[i].value.List? && Holds(cat[i].value.items, id))
      {
        if i > 0 {
          assert cat[i] == cat[1..][i - 1];
        }
      }
    }
  }

  /**
   * One featured element looked up by `encontrarAtraccionPorId`: a number is looked up as an
   * id; a record is never `===` to an id, so it resolves to nothing.
   */
  function ResolveOne(cat: Catalog, e: Element): (r: Option<Attraction>)
    ensures r.Some? ==> e == Number(r.value.id)
  {
    match e
    case Number(n) => Lookup(cat, n)
    case Record(_) => None
  }

  /**
   * `ids.map(encontrarAtraccionPorId).filter(Boolean)`: the featured elements resolved in order,
   * the unresolved ones dropped. The result is no longer than the list.
   */
  function Resolve(cat: Catalog, ids: seq<Element>): (r: seq<Attraction>)
    ensures |r| <= |ids|
  {
    if ids == [] then []
    else
      var last := ResolveOne(cat, ids[|ids| - 1]);
      Resolve(cat, ids[..|ids| - 1]) + if last.Some? then [last.value] else []
  }

  /** The id of every resolved attraction is in the featured list. */
  lemma {:induction false} ResolveListed(cat: Catalog, ids: seq<Element>, a: Attraction)
    requires a in Resolve(cat, ids)
    ensures Number(a.id) in ids
    decreases |ids|
  {
    var init := ids[..|ids| - 1];
    assert ids == init + [ids[|ids| - 1]];
    if a in Resolve(cat, init) {
      ResolveListed(cat, init, a);
    }
  }

  /** Resolving a concatenation resolves each part, keeping their order. */
  lemma {:induction false} ResolveAppend(cat: Catalog, xs: seq<Element>, ys: seq<Element>)
    ensures Resolve(cat, xs + ys) == Resolve(cat, xs) + Resolve(cat, ys)
    decreases |ys|
  {
    if ys != [] {
      var init := ys[..|ys| - 1];
      assert (xs + ys)[..|xs + ys| - 1] == xs + init;
      ResolveAppend(cat, xs, init);
    } else {
      assert xs + ys == xs;
    }
  }

  /** Every featured id that some array-valued key holds is resolved to its first record. */
  lemma {:induction false} ResolveComplete(cat: Catalog, ids: seq<Element>, n: int)
    requires Number(n) in ids
    requires CatalogHolds(cat, n)
    ensures Lookup(cat, n).value in Resolve(cat, ids)
    decreases |ids|
  {
    var init := ids[..|ids| - 1];
    if ids[|ids| - 1] != Number(n) {
      assert ids == init + [ids[|ids| - 1]];
      ResolveComplete(cat, init, n);
    }
  }

  /**
   * When every featured id is found, the featured selection has one attraction per id, in the
   * list's order, each the first record with that id.
   */
  lemma {:induction false} ResolveAllFound(cat: Catalog, ids: seq<Element>)
    requires forall i :: 0 <= i < |ids| ==> ids[i].Number? && CatalogHolds(cat, ids[i].n)
    ensures |Resolve(cat, ids)| == |ids|
    ensures forall i :: 0 <= i < |ids| ==> Resolve(cat, ids)[i] == Lookup(cat, ids[i].n).value
    decreases |ids|
  {
    if ids != [] {
      var init, last := ids[..|ids| - 1], ids[|ids| - 1];
      ResolveAllFound(cat, init);
      var found := Lookup(cat, last.n);
      assert found.Some?;
      assert Resolve(cat, ids) == Resolve(cat, init) + [found.value];
    }
  }

  /**
   * The featured selection: `atracciones.destacados` resolved. Reading `.map` of a missing or
   * non-array `destacados` throws.
   */
  function Featured(cat: Catalog): Result<seq<Attraction>>
  {
    match Get(cat, FeaturedKey)
    case Some(List(ids)) => Ok(Resolve(cat, ids))
    case _ => Throws
  }

  /**
   * The featured selection succeeds exactly when the catalog has an array under `destacados`;
   * in particular it throws on the catalog that was never loaded.
   */
  lemma FeaturedThrowsIff(cat: Catalog)
    requires WellFormed(cat)
    ensures Featured(cat).Throws? <==> forall k :: 0 <= k < |cat| && cat[k].key == FeaturedKey ==> !cat[k].value.List?
    ensures Featured([]) == Throws
  {
    if k :| 0 <= k < |cat| && cat[k].key == FeaturedKey {
      GetAt(cat, k);
    }
  }
}
