/**
 * The in-memory catalog of attractions, as the page holds it after loading its JSON document.
 *
 * A JSON object is modelled by the sequence of its (key, value) entries, in the order in
 * which `Object.keys` and `for...in` enumerate them. Its values are arrays, whose elements
 * are attraction records or numbers (the featured-id list), or something else.
 */
module Catalog {

  datatype Option<+T> = None | Some(value: T)

  /** The outcome of an operation that can throw a JavaScript `TypeError`. */
  datatype Result<+T> = Ok(value: T) | Throws

  /** One tourist-site record. `especialidades` may be missing from the record. */
  datatype Attraction = Attraction(
    id: int,
    nombre: string,
    descripcion: string,
    ubicacion: string,
    distancia: string,
    horario: string,
    precio: string,
    imagen: string,
    categoria: string,
    especialidades: Option<seq<string>>)

  /** An element of a JSON array: an attraction record, or a number (an attraction id). */
  datatype Element = Record(attraction: Attraction) | Number(n: int)

  /**
   * A value under a catalog key: an array (`Array.isArray` holds of it), or any other JSON
   * value, of which the model keeps only whether it is truthy and whether its `length` property
   * is the number 0 (the empty string, or an object such as `{"length": 0}`).
   */
  datatype Value = List(items: seq<Element>) | Other(truthy: bool, emptyLength: bool)

  datatype Entry = Entry(key: string, value: Value)

  type Catalog = seq<Entry>

  /** The key under which the catalog keeps its featured-id list. */
  const FeaturedKey: string := "destacados"

  /** A JSON object never holds the same key twice. */
  ghost predicate WellFormed(cat: Catalog)
  {
    forall i, j :: 0 <= i < j < |cat| ==> cat[i].key != cat[j].key
  }

  /** Property access `cat[key]`: the value stored under `key`, if the key is present. */
  function Get(cat: Catalog, key: string): (r: Option<Value>)
    ensures r.None? <==> forall k :: 0 <= k < |cat| ==> cat[k].key != key
    ensures r.Some? ==> exists k :: 0 <= k < |cat| && cat[k] == Entry(key, r.value)
  {
    if cat == [] then None
    else if cat[0].key == key then Some(cat[0].value)
    else
      var r := Get(cat[1..], key);
      assert forall k :: 1 <= k < |cat| ==> cat[k] == cat[1..][k - 1];
      r
  }

  /** In a well-formed catalog, reading the key of an entry yields that entry's value. */
  lemma {:induction false} GetAt(cat: Catalog, k: int)
    requires WellFormed(cat)
    requires 0 <= k < |cat|
    ensures Get(cat, cat[k].key) == Some(cat[k].value)
  {
    if k > 0 {
      assert WellFormed(cat[1..]) by {
        forall i, j | 0 <= i < j < |cat[1..]|
          ensures cat[1..][i].key != cat[1..][j].key
        {
          assert cat[1..][i] == cat[i + 1] && cat[1..][j] == cat[j + 1];
        }
      }
      GetAt(cat[1..], k - 1);
      assert cat[1..][k - 1] == cat[k];
    }
  }
}
