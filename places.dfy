/** The records the scraper collects and the lookup that decides whether one is already known
    (main.go: Place, Coordinates, SearchParams, containsPlace). */
module Places {

  /** A geographic point. float64 in the program; the core never computes with it. */
  datatype Coordinates = Coordinates(lat: real, lon: real)

  /** The parameters of one search: its centre, the query text and the radius in kilometres. */
  datatype SearchParams = SearchParams(latitude: real, longitude: real, query: string, radiusKm: real)

  /** One business extracted from a results page. Hours, phone and website are empty when absent. */
  datatype Place = Place(
    name: string,
    address: string,
    stars: real,
    reviews: int,
    coordinates: Coordinates,
    hours: string,
    phone: string,
    website: string)

  /** The identity of a place for deduplication: its name and its address, nothing else. */
  datatype Key = Key(name: string, address: string)

  function KeyOf(p: Place): (key: Key)
  {
    Key(p.name, p.address)
  }

  /** The keys of all places in a list. */
  function Keys(places: seq<Place>): (keys: set<Key>)
  {
    set i | 0 <= i < |places| :: KeyOf(places[i])
  }

  /** containsPlace: a linear scan that reports whether some place in the list has both the
      name and the address of newPlace; every other field is ignored. */
  method ContainsPlace(places: seq<Place>, newPlace: Place) returns (found: bool)
    ensures found <==> exists i :: 0 <= i < |places| && places[i].name == newPlace.name
                                                     && places[i].address == newPlace.address
    ensures found <==> KeyOf(newPlace) in Keys(places)
  {
    for i := 0 to |places|
      invariant forall k :: 0 <= k < i ==>
        !(places[k].name == newPlace.name && places[k].address == newPlace.address)
    {
      if places[i].name == newPlace.name && places[i].address == newPlace.address {
        assert KeyOf(places[i]) == KeyOf(newPlace);
        return true;
      }
    }
    return false;
  }
}
