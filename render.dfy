/** The card renderer: the category badge table and the list-to-cards mapping. */
module Renderer {
  import opened Catalog

  /** The display names of the four known categories. */
  const DisplayNames: map<string, string> :=
    map["playas" := "Playa", "gastronomia" := "Gastronomía", "cultura" := "Cultural", "aventura" := "Aventura"]

  /**
   * The badge text of a category: its display name when it has one, otherwise the key itself.
   * Exactly the keys outside the table are shown unchanged, and a badge text is never itself a
   * key of the table, so mapping a badge text again leaves it as it is.
   */
  function CategoryLabel(categoria: string): (r: string)
    ensures r == categoria <==> categoria !in DisplayNames
    ensures r !in DisplayNames
  {
    if categoria in DisplayNames then DisplayNames[categoria] else categoria
  }

  /**
   * One rendered card. A record renders its fields with its category's badge; a number has none
   * of the fields, and every placeholder of its card reads `undefined`.
   */
  datatype Card = AttractionCard(attraction: Attraction, badge: string) | BlankCard

  /** What the cards container shows after an operation; `Thrown` when the operation threw before rendering. */
  datatype View = NoResults | Cards(cards: seq<Card>) | Thrown

  /** The card of one entry: a record's card carries the record and its category's badge; a number's card is blank. */
  function CardOf(e: Element): (r: Card)
    ensures r.AttractionCard? <==> e.Record?
    ensures r.AttractionCard? ==> r.attraction == e.attraction && r.badge == CategoryLabel(e.attraction.categoria)
  {
    match e
    case Record(a) => AttractionCard(a, CategoryLabel(a.categoria))
    case Number(_) => BlankCard
  }

  /** `entries.map(template).join('')`: one card per entry, in entry order. */
  function CardsOf(entries: seq<Element>): (r: seq<Card>)
    ensures |r| == |entries|
    ensures forall i :: 0 <= i < |entries| ==> r[i] == CardOf(entries[i])
  {
    if entries == [] then [] else [CardOf(entries[0])] + CardsOf(entries[1..])
  }

  /**
   * `renderizarTarjetas`: the no-results placeholder exactly when the list is empty, and
   * otherwise one card per entry in input order. Rendering an array never throws.
   */
  function Render(entries: seq<Element>): (v: View)
    ensures v.NoResults? <==> entries == []
    ensures !v.Thrown?
    ensures v.Cards? ==> |v.cards| == |entries| && forall i :: 0 <= i < |entries| ==> v.cards[i] == CardOf(entries[i])
  {
    if |entries| == 0 then NoResults else Cards(CardsOf(entries))
  }

  /** A list of attractions as array elements. */
  function Records(l: seq<Attraction>): seq<Element>
  {
    seq(|l|, i requires 0 <= i < |l| => Record(l[i]))
  }
}
