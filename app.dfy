/**
 * The page controller: the loaded catalog and the current category, and the user actions
 * that read them.
 */
module App {
  import opened Catalog
  import opened Search
  import opened Finder
  import opened Renderer
  import opened Views

  /**
   * The inner `forEach` of the search over one array: the matching records in array order, or
   * a throw when the array holds a number.
   */
  method ScanArray(items: seq<Element>, term: string) returns (r: Result<seq<Attraction>>)
    ensures r == if HasNumber(items) then Throws else Ok(Filter(items, term))
  {
    var found: seq<Attraction> := [];
    for j := 0 to |items|
      invariant !HasNumber(items[..j])
      invariant found == Filter(items[..j], term)
    {
      var matched := MatchElement(items[j], term);
      if matched.Throws? {
        assert items[j].Number?;
        return Throws;
      }
      if matched.value {
        found := found + [items[j].attraction];
      }
      assert items[..j + 1][..j] == items[..j];
    }
    assert items[..|items|] == items;
    return Ok(found);
  }

  class AricaGoApp {
    /** The catalog; the empty key sequence until a document has been loaded. */
    var atracciones: Catalog
    /** The category last selected; `todos` at start. */
    var categoriaActual: string

    ghost predicate Valid()
      reads this
    {
      WellFormed(atracciones)
    }

    /** The controller before its asynchronous initialisation has run. */
    constructor ()
      ensures Valid()
      ensures atracciones == [] && categoriaActual == AllCategories
    {
      atracciones := [];
      categoriaActual := AllCategories;
    }

    /**
     * The effect of `cargarDatos`: the parsed document replaces the catalog; on a failed fetch
     * or parse (`None`) the catalog stays as it was.
     */
    method Load(document: Option<Catalog>)
      requires Valid()
      requires document.Some? ==> WellFormed(document.value)
      modifies this`atracciones
      ensures Valid()
      ensures atracciones == if document.Some? then document.value else old(atracciones)
    {
      if document.Some? {
        atracciones := document.value;
      }
    }

    /** `init`: load, then show the featured attractions. */
    method Init(document: Option<Catalog>) returns (v: View)
      requires Valid()
      requires document.Some? ==> WellFormed(document.value)
      modifies this`atracciones
      ensures Valid()
      ensures atracciones == if document.Some? then document.value else old(atracciones)
      ensures v == FeaturedView(atracciones)
    {
      Load(document);
      v := ShowFeatured();
    }

    /** `filtrarPorCategoria`: remember the category, then show the featured list or that category's list. */
    method FilterByCategory(categoria: string) returns (v: View)
      requires Valid()
      modifies this`categoriaActual
      ensures Valid()
      ensures categoriaActual == categoria
      ensures v == CategoryView(atracciones, categoria)
    {
      categoriaActual := categoria;
      if categoria == AllCategories {
        v := ShowFeatured();
      } else {
        v := ShowResults(categoria);
      }
    }

    /** `mostrarDestacados`: look up every featured id in order, keep the ones found, render them. */
    method ShowFeatured() returns (v: View)
      requires Valid()
      ensures v == FeaturedView(atracciones)
      ensures v.Thrown? <==>
        forall k :: 0 <= k < |atracciones| && atracciones[k].key == FeaturedKey ==> !atracciones[k].value.List?
    {
      FeaturedThrowsIff(atracciones);
      var featured := Get(atracciones, FeaturedKey);
      if !(featured.Some? && featured.value.List?) {
        return Thrown;
      }
      var ids := featured.value.items;
      var selected: seq<Attraction> := [];
      for i := 0 to |ids|
        invariant selected == Resolve(atracciones, ids[..i])
      {
        var found: Option<Attraction> := None;
        if ids[i].Number? {
          found := FindById(ids[i].n);
        }
        if found.Some? {
          selected := selected + [found.value];
        }
        assert ids[..i + 1][..i] == ids[..i];
      }
      assert ids[..|ids|] == ids;
      v := Render(Records(selected));
    }

    /**
     * `mostrarResultados`: render the list under the category key, or the empty list when the
     * key is missing or falsy; a truthy non-array value is rendered as it is.
     */
    method ShowResults(categoria: string) returns (v: View)
      requires Valid()
      ensures v == ResultsView(atracciones, categoria)
      ensures forall k :: 0 <= k < |atracciones| && atracciones[k].key == categoria && atracciones[k].value.List?
                ==> v == Render(atracciones[k].value.items)
    {
      forall k | 0 <= k < |atracciones| && atracciones[k].key == categoria
        ensures Get(atracciones, categoria) == Some(atracciones[k].value)
      {
        GetAt(atracciones, k);
      }
      var value := Get(atracciones, categoria);
      if value == None {
        v := Render([]);
      } else if value.value.List? {
        v := Render(value.value.items);
      } else if !value.value.truthy {
        v := Render([]);
      } else if value.value.emptyLength {
        v := NoResults;
      } else {
        v := Thrown;
      }
    }

    /**
     * `buscarAtracciones`: a short term re-applies the current category; otherwise every
     * array-valued key is scanned in order and the matches are rendered, unless the scan
     * reaches a number and throws.
     */
    method Search(term: string) returns (v: View)
      requires Valid()
      modifies this`categoriaActual
      ensures Valid()
      ensures categoriaActual == old(categoriaActual)
      ensures v == SearchView(atracciones, categoriaActual, term)
    {
      if |term| < 2 {
        v := FilterByCategory(categoriaActual);
        return;
      }
      var results: seq<Attraction> := [];
      for k := 0 to |atracciones|
        invariant categoriaActual == old(categoriaActual)
        invariant !ReachesNumber(atracciones[..k])
        invariant results == Collected(atracciones[..k], term)
      {
        var entry := atracciones[k];
        assert atracciones[..k + 1] == atracciones[..k] + [entry];
        if entry.value.List? {
          var scanned := ScanArray(entry.value.items, term);
          if scanned.Throws? {
            assert atracciones[k].value.List? && HasNumber(atracciones[k].value.items);
            return Thrown;
          }
          results := results + scanned.value;
        }
        assert forall i :: 0 <= i < k ==> atracciones[..k + 1][i] == atracciones[..k][i];
      }
      assert atracciones[..|atracciones|] == atracciones;
      v := Render(Records(results));
    }

    /**
     * `encontrarAtraccionPorId`: the keys in order, the first array-valued one whose `find`
     * succeeds gives the result; `None` (null) when none does.
     */
    method FindById(id: int) returns (r: Option<Attraction>)
      ensures r == Lookup(atracciones, id)
    {
      for k := 0 to |atracciones|
        invariant Lookup(atracciones, id) == Lookup(atracciones[k..], id)
      {
        assert atracciones[k..][1..] == atracciones[k + 1..];
        var value := atracciones[k].value;
        if value.List? {
          var found := FindIn(value.items, id);
          if found.Some? {
            return found;
          }
        }
      }
      return None;
    }
  }
}
