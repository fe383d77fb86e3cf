/**
 * The small catalog `{playas: [Playa Chinchorro], destacados: [1]}` and what each action shows
 * on it. Searching it with two or more characters throws, because the scan reaches the
 * featured id `1`; without the featured list the same search finds the beach.
 */
module Examples {
  import opened Text
  import opened Catalog
  import opened Search
  import opened Finder
  import opened Renderer
  import opened Views

  const Chinchorro: Attraction :=
    Attraction(1, "Playa Chinchorro", "Playa urbana", "Arica", "2 km", "Todo el día", "Gratis",
               "chinchorro.jpg", "playas", Some(["Surf"]))

  const Sample: Catalog := [Entry("playas", List([Record(Chinchorro)])), Entry(FeaturedKey, List([Number(1)]))]

  /** `todos` shows the one featured beach, under its badge. */
  lemma SampleFeatured()
    ensures CategoryView(Sample, AllCategories) == Cards([AttractionCard(Chinchorro, "Playa")])
  {
    assert Get(Sample, FeaturedKey) == Some(List([Number(1)]));
    assert Lookup(Sample, 1) == Some(Chinchorro);
    assert Resolve(Sample, [Number(1)]) == Resolve(Sample, []) + [Chinchorro];
    assert Records([Chinchorro]) == [Record(Chinchorro)];
    assert CategoryLabel("playas") == "Playa";
    assert CardsOf([Record(Chinchorro)]) == [AttractionCard(Chinchorro, "Playa")];
  }

  /** A search for `chin` throws on the featured id before anything is rendered. */
  lemma SampleSearchThrows()
    ensures SearchView(Sample, AllCategories, "chin") == Thrown
  {
    assert [Number(1)][0].Number?;
    SearchThrowsOnFeaturedIds(Sample, AllCategories, "chin", [Number(1)]);
  }

  /** A one-character term shows the current category again. */
  lemma SampleShortTerm()
    ensures SearchView(Sample, "playas", "x") == Cards([AttractionCard(Chinchorro, "Playa")])
  {
  }

  /** Without the featured list, `CHIN` finds the beach by its name and `SURF` by its specialty tag. */
  lemma SampleSearchFinds()
    ensures SearchView([Sample[0]], AllCategories, "CHIN") == Cards([AttractionCard(Chinchorro, "Playa")])
    ensures SearchView([Sample[0]], AllCategories, "SURF") == Cards([AttractionCard(Chinchorro, "Playa")])
  {
    assert Lower("CHIN") == "chin";
    assert Lower(Chinchorro.nombre)[6..10] == "chin";
    assert OccursAt(Lower(Chinchorro.nombre), "chin", 6);
    assert Matches(Chinchorro, "CHIN");
    assert Lower("SURF") == "surf";
    assert Lower("Surf") == "surf";
    assert OccursAt(Lower("Surf"), "surf", 0);
    assert Matches(Chinchorro, "SURF");
    FoundAlone("CHIN");
    FoundAlone("SURF");
  }

  /** A term that matches the beach finds it alone in the catalog without the featured list. */
  lemma FoundAlone(term: string)
    requires |term| >= 2 && Matches(Chinchorro, term)
    ensures SearchView([Sample[0]], AllCategories, term) == Cards([AttractionCard(Chinchorro, "Playa")])
  {
    var beaches := [Sample[0]];
    var items := [Record(Chinchorro)];
    assert !ReachesNumber(beaches);
    assert items[..0] == [];
    assert Filter(items, term) == [Chinchorro];
    assert beaches[..0] == [];
    assert Collected(beaches, term) == [Chinchorro];
    assert Records([Chinchorro]) == items;
    assert CategoryLabel("playas") == "Playa";
    assert CardsOf(items) == [AttractionCard(Chinchorro, "Playa")];
  }
}
