/**
 * What the page shows after each user action, as functions of the catalog: the category
 * filter, the featured selection and the search.
 */
module Views {
  import opened Text
  import opened Catalog
  import opened Search
  import opened Finder
  import opened Renderer

  /** The category identifier that selects the featured attractions. */
  const AllCategories: string := "todos"

  /**
   * `mostrarResultados`: the list under the key, or the empty list (`|| []`) when the key is
   * missing or holds a falsy value. A truthy non-array value reaches the renderer: when its
   * `length` is 0 the renderer shows the placeholder, and otherwise its `.map`, which no JSON
   * value other than an array has as a function, throws.
   */
  function ResultsView(cat: Catalog, categoria: string): View
  {
    match Get(cat, categoria)
    case None => Render([])
    case Some(List(items)) => Render(items)
    case Some(Other(truthy, emptyLength)) => if truthy && !emptyLength then Thrown else NoResults
  }

  /** `mostrarDestacados`: the featured selection rendered, or the error of reading it. */
  function FeaturedView(cat: Catalog): View
  {
    match Featured(cat)
    case Ok(selected) => Render(Records(selected))
    case Throws => Thrown
  }

  /** The dispatch of `filtrarPorCategoria`. */
  function CategoryView(cat: Catalog, categoria: string): View
  {
    if categoria == AllCategories then FeaturedView(cat) else ResultsView(cat, categoria)
  }

  /**
   * `buscarAtracciones`: a term shorter than two characters (raw length, no trimming) shows the
   * current category again; a longer one shows the scan's matches, or throws with it.
   */
  ghost function SearchView(cat: Catalog, current: string, term: string): View
  {
    if |term| < 2 then CategoryView(cat, current)
    else
      match Scan(cat, term)
      case Ok(found) => Render(Records(found))
      case Throws => Thrown
  }

  /** Filtering by a present category other than `todos` shows that key's list unchanged, one card per entry. */
  lemma CategorySelectsList(cat: Catalog, k: int)
    requires WellFormed(cat)
    requires 0 <= k < |cat| && cat[k].key != AllCategories && cat[k].value.List?
    ensures CategoryView(cat, cat[k].key) == Render(cat[k].value.items)
  {
    GetAt(cat, k);
  }

  /** Filtering by an absent category other than `todos` shows the no-results placeholder. */
  lemma CategoryAbsent(cat: Catalog, categoria: string)
    requires categoria != AllCategories
    requires forall k :: 0 <= k < |cat| ==> cat[k].key != categoria
    ensures CategoryView(cat, categoria) == NoResults
  {
  }

  /**
   * `todos` shows the featured ids resolved in list order, unresolvable ids dropped (see
   * `Resolve` for its bounds and `ResolveAllFound` for the case where every id is found).
   */
  lemma FeaturedSelection(cat: Catalog, ids: seq<Element>)
    requires Get(cat, FeaturedKey) == Some(List(ids))
    ensures CategoryView(cat, AllCategories) == Render(Records(Resolve(cat, ids)))
  {
  }

  /** Before the catalog is loaded, and whenever it has no array under `destacados`, showing `todos` throws. */
  lemma FeaturedUnloadedThrows()
    ensures CategoryView([], AllCategories) == Thrown
  {
  }

  /** Terms that differ only in letter case produce the same view. */
  lemma SearchIgnoresCase(cat: Catalog, current: string, t1: string, t2: string)
    requires Lower(t1) == Lower(t2)
    ensures SearchView(cat, current, t1) == SearchView(cat, current, t2)
  {
    assert |t1| == |Lower(t1)| == |t2|;
    CollectedIgnoresCase(cat, t1, t2);
  }

  /**
   * A search of two or more characters over a catalog whose featured-id list is non-empty
   * throws: the scan reaches the first id and reads `.nombre` of a number.
   */
  lemma SearchThrowsOnFeaturedIds(cat: Catalog, current: string, term: string, ids: seq<Element>)
    requires |term| >= 2
    requires Get(cat, FeaturedKey) == Some(List(ids))
    requires exists j :: 0 <= j < |ids| && ids[j].Number?
    ensures SearchView(cat, current, term) == Thrown
  {
    var k :| 0 <= k < |cat| && cat[k] == Entry(FeaturedKey, List(ids));
    assert HasNumber(cat[k].value.items);
  }

  /**
   * A search of two or more characters over a catalog whose arrays hold only records shows
   * exactly the matching records, every one of them, in key order and then array order.
   */
  lemma SearchFindsMatches(cat: Catalog, current: string, term: string, a: Attraction)
    requires |term| >= 2
    requires !ReachesNumber(cat)
    ensures SearchView(cat, current, term) == Render(Records(Collected(cat, term)))
    ensures a in Collected(cat, term) <==>
      Matches(a, term) && HeldBy(cat, a)
  {
    CollectedMembers(cat, term, a);
  }
}
