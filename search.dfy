/**
 * The text search over the catalog: the per-attraction match and the specification of the
 * scan that collects the matches of every array-valued key.
 */
module Search {
  import opened Text
  import opened Catalog

  /**
   * Whether an attraction record matches a search term: the lower-cased term is a substring of
   * the lower-cased name, description or location, or of some lower-cased specialty tag.
   * A record without specialty tags matches on its three text fields only.
   */
  predicate Matches(a: Attraction, term: string)
  {
    var q := Lower(term);
    Includes(Lower(a.nombre), q) || Includes(Lower(a.descripcion), q) || Includes(Lower(a.ubicacion), q)
    || (a.especialidades.Some? && exists e | e in a.especialidades.value :: Includes(Lower(e), q))
  }

  /** The match stated with substrings, without the `includes` computation. */
  lemma MatchesIff(a: Attraction, term: string)
    ensures Matches(a, term) <==>
      var q := Lower(term);
      IsSubstring(q, Lower(a.nombre)) || IsSubstring(q, Lower(a.descripcion))
      || IsSubstring(q, Lower(a.ubicacion))
      || (a.especialidades.Some? && exists e :: e in a.especialidades.value && IsSubstring(q, Lower(e)))
  {
  }

  /** The match depends on the term only through its lower-cased form. */
  lemma MatchesIgnoresCase(a: Attraction, term: string)
    ensures Matches(a, term) == Matches(a, Lower(term))
  {
    LowerIdempotent(term);
  }

  /**
   * The match applied to an arbitrary array element: reading `.nombre.toLowerCase()` of a
   * number throws.
   */
  function MatchElement(e: Element, term: string): (r: Result<bool>)
    ensures r.Throws? <==> e.Number?
    ensures r.Ok? ==> (r.value <==> Matches(e.attraction, term))
  {
    match e
    case Record(a) => Ok(Matches(a, term))
    case Number(_) => Throws
  }

  /** Some element of the array is a number. */
  ghost predicate HasNumber(items: seq<Element>)
  {
    exists j :: 0 <= j < |items| && items[j].Number?
  }

  /** Some array-valued key of the catalog holds a number, which the scan reaches and throws on. */
  ghost predicate ReachesNumber(cat: Catalog)
  {
    exists k :: 0 <= k < |cat| && cat[k].value.List? && HasNumber(cat[k].value.items)
  }

  /** The matching attraction records of one array, in array order. */
  function Filter(items: seq<Element>, term: string): seq<Attraction>
  {
    if items == [] then []
    else
      var last := items[|items| - 1];
      Filter(items[..|items| - 1], term)
      + (if last.Record? && Matches(last.attraction, term) then [last.attraction] else [])
  }

  /** The matches of every array-valued key, concatenated in key order; other keys contribute nothing. */
  function Collected(cat: Catalog, term: string): seq<Attraction>
  {
    if cat == [] then []
    else
      var last := cat[|cat| - 1];
      Collected(cat[..|cat| - 1], term)
      + (if last.value.List? then Filter(last.value.items, term) else [])
  }

  /** The outcome of the scan: it throws exactly when it reaches a number, and otherwise yields the matches. */
  ghost function Scan(cat: Catalog, term: string): Result<seq<Attraction>>
  {
    if ReachesNumber(cat) then Throws else Ok(Collected(cat, term))
  }

  /** Filtering a concatenation filters each part, keeping their order. */
  lemma {:induction false} FilterAppend(xs: seq<Element>, ys: seq<Element>, term: string)
    ensures Filter(xs + ys, term) == Filter(xs, term) + Filter(ys, term)
    decreases |ys|
  {
    if ys != [] {
      var init := ys[..|ys| - 1];
      assert (xs + ys)[..|xs + ys| - 1] == xs + init;
      FilterAppend(xs, init, term);
    } else {
      assert xs + ys == xs;
    }
  }

  /** Every filtered record matches, and every matching record of the array is kept. */
  lemma {:induction false} FilterMembers(items: seq<Element>, term: string, a: Attraction)
    ensures a in Filter(items, term) <==> Record(a) in items && Matches(a, term)
    decreases |items|
  {
    if items != [] {
      var init := items[..|items| - 1];
      FilterMembers(init, term, a);
      assert items == init + [items[|items| - 1]];
    }
  }

  /** No deduplication: a matching record occurs in the result as often as in the array, a non-matching one never. */
  lemma {:induction false} FilterCount(items: seq<Element>, term: string, a: Attraction)
    ensures multiset(Filter(items, term))[a] == if Matches(a, term) then multiset(items)[Record(a)] else 0
    decreases |items|
  {
    if items != [] {
      var init, last := items[..|items| - 1], items[|items| - 1];
      FilterCount(init, term, a);
      assert items == init + [last];
      var tail := if last.Record? && Matches(last.attraction, term) then [last.attraction] else [];
      assert Filter(items, term) == Filter(init, term) + tail;
      assert multiset(Filter(items, term)) == multiset(Filter(init, term)) + multiset(tail);
      assert multiset(items) == multiset(init) + multiset([last]);
    }
  }

  /** Collecting over a concatenation of catalogs collects each part, keeping key order. */
  lemma {:induction false} CollectedAppend(c1: Catalog, c2: Catalog, term: string)
    ensures Collected(c1 + c2, term) == Collected(c1, term) + Collected(c2, term)
    decreases |c2|
  {
    if c2 != [] {
      var init := c2[..|c2| - 1];
      assert (c1 + c2)[..|c1 + c2| - 1] == c1 + init;
      CollectedAppend(c1, init, term);
    } else {
      assert c1 + c2 == c1;
    }
  }

  /** Some array-valued key of the catalog holds the record. */
  ghost predicate HeldBy(cat: Catalog, a: Attraction)
  {
    exists k :: 0 <= k < |cat| && cat[k].value.List? && Record(a) in cat[k].value.items
  }

  /**
   * Every collected record matches and sits in an array-valued key, and every matching record
   * of every array-valued key is collected.
   */
  lemma {:induction false} CollectedMembers(cat: Catalog, term: string, a: Attraction)
    ensures a in Collected(cat, term) <==> Matches(a, term) && HeldBy(cat, a)
    decreases |cat|
  {
    if cat != [] {
      var init, last := cat[..|cat| - 1], cat[|cat| - 1];
      CollectedMembers(init, term, a);
      var tail := if last.value.List? then Filter(last.value.items, term) else [];
      assert Collected(cat, term) == Collected(init, term) + tail;
      if last.value.List? {
        FilterMembers(last.value.items, term, a);
      }
      HeldByLast(cat, a);
    }
  }

  /** A record is held by a non-empty catalog when it is held by all but the last key, or by the last key. */
  lemma HeldByLast(cat: Catalog, a: Attraction)
    requires cat != []
    ensures HeldBy(cat, a) <==>
      HeldBy(cat[..|cat| - 1], a) || (cat[|cat| - 1].value.List? && Record(a) in cat[|cat| - 1].value.items)
  {
    var init := cat[..|cat| - 1];
    if HeldBy(cat, a) {
      var k :| 0 <= k < |cat| && cat[k].value.List? && Record(a) in cat[k].value.items;
      if k < |init| {
        assert init[k] == cat[k];
      }
    }
    if HeldBy(init, a) {
      var k :| 0 <= k < |init| && init[k].value.List? && Record(a) in init[k].value.items;
      assert cat[k] == init[k];
    }
  }

  /** How often the record occurs in the arrays of the catalog, summed over its array-valued keys. */
  ghost function HeldCount(cat: Catalog, a: Attraction): nat
  {
    if cat == [] then 0
    else
      var last := cat[|cat| - 1];
      HeldCount(cat[..|cat| - 1], a) + (if last.value.List? then multiset(last.value.items)[Record(a)] else 0)
  }

  /**
   * No deduplication across keys either: a matching record occurs in the scan's result as often
   * as it occurs in all the array-valued keys together, so a record held under two keys is
   * reported twice; a non-matching record never occurs.
   */
  lemma {:induction false} CollectedCount(cat: Catalog, term: string, a: Attraction)
    ensures multiset(Collected(cat, term))[a] == if Matches(a, term) then HeldCount(cat, a) else 0
    decreases |cat|
  {
    if cat != [] {
      var init, last := cat[..|cat| - 1], cat[|cat| - 1];
      CollectedCount(init, term, a);
      var tail := if last.value.List? then Filter(last.value.items, term) else [];
      assert Collected(cat, term) == Collected(init, term) + tail;
      assert multiset(Collected(cat, term)) == multiset(Collected(init, term)) + multiset(tail);
      if last.value.List? {
        FilterCount(last.value.items, term, a);
      }
    }
  }

  /** Terms with the same lower-cased form select the same records from an array. */
  lemma {:induction false} FilterIgnoresCase(items: seq<Element>, t1: string, t2: string)
    requires Lower(t1) == Lower(t2)
    ensures Filter(items, t1) == Filter(items, t2)
    decreases |items|
  {
    if items != [] {
      FilterIgnoresCase(items[..|items| - 1], t1, t2);
    }
  }

  /** Terms with the same lower-cased form collect the same records from the catalog. */
  lemma {:induction false} CollectedIgnoresCase(cat: Catalog, t1: string, t2: string)
    requires Lower(t1) == Lower(t2)
    ensures Collected(cat, t1) == Collected(cat, t2)
    decreases |cat|
  {
    if cat != [] {
      CollectedIgnoresCase(cat[..|cat| - 1], t1, t2);
      var last := cat[|cat| - 1];
      if last.value.List? {
        FilterIgnoresCase(last.value.items, t1, t2);
      }
    }
  }
}
