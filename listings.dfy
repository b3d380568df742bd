/** One listing record as loaded from the JSON dataset. */
module Listings {

  datatype Option<T> = None | Some(value: T)

  /** The value stored under a text key of a record: the key may be missing,
      hold JSON `null`, or hold a string. */
  datatype Field = Absent | Null | Str(s: string)

  /** A listing. Numbers are integers (prices in euros, coordinates in a
      fixed-point unit); `None` stands for a missing key or `null`.
      `priceChanged` is false when the key is missing or falsy. */
  datatype Listing = Listing(
    title: Field,
    category: Field,
    county: Field,
    link: Field,
    latestPrice: Option<int>,
    avgPrice: Option<int>,
    avgPricePerM2: Option<int>,
    sizeM2: Option<int>,
    latitude: Option<int>,
    longitude: Option<int>,
    priceChanged: bool)

  /** `str(l.get(key, ""))`: a missing key reads as "", and `null` is
      rendered by `str` as "None". Only a missing key or an empty string read
      as empty, and apart from a missing key the reading is the one the popup
      shows. */
  function AsStr(f: Field): (r: string)
    ensures r == [] <==> f == Absent || f == Str([])
    ensures f.Str? ==> r == f.s
    ensures !f.Absent? ==> r == DisplayTitle(f)
  {
    match f
    case Absent => ""
    case Null => "None"
    case Str(s) => s
  }

  /** `l.get("title", "No title")` as it appears inside an f-string. */
  function DisplayTitle(f: Field): string {
    match f
    case Absent => "No title"
    case Null => "None"
    case Str(s) => s
  }

  /** `l.get("title", "No title")` handed to the marker as its tooltip: a
      `null` title stays `None`, so the marker has no tooltip; otherwise it is
      the text the popup shows. */
  function Tooltip(f: Field): (r: Option<string>)
    ensures r == None <==> f == Null
    ensures r.Some? ==> r.value == DisplayTitle(f)
  {
    match f
    case Absent => Some("No title")
    case Null => None
    case Str(s) => Some(s)
  }

  /** Python truthiness of an optional number: present and non-zero. */
  predicate Truthy(n: Option<int>) {
    n.Some? && n.value != 0
  }
}
