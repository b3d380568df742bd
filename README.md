# Bratislava listings map: filtering and marker pass

This project models the one piece of logic in the Streamlit dashboard
`app.py`. The dashboard loads real-estate listings. It keeps those that pass
the sidebar filters, places a map marker for each kept listing that has
coordinates, and reports "shown / total".

The model has three layers:

- `listings.dfy` (`Listings`): the listing record. Every JSON key the page
  reads is a field. A text field is `Absent`, `Null` or `Str(s)`, so the
  model can reproduce `str(l.get(key, ""))`: a missing key reads as `""` and
  `null` reads as `"None"`. Numbers are `Option<int>`.
  Python truthiness of a number is `Truthy`: present and non-zero.
- `filtering.dfy` (`Filtering`): the sidebar values as a `FilterConfig` and
  the four AND-combined clauses as predicates:
  - `PriceClause`: the price is truthy and lies within the bounds.
  - `ChangeClause`: the price has changed, when the checkbox asks for it.
  - `RoomClause`: the token test on the lower-cased category.
  - `TextClause`: the search text occurs in `"title category county"`.

  `Keep` is their conjunction. `FilterListings` is the filtering loop,
  written with the same early `continue`s, and is proved to return
  `Filtered(data, cfg)`. That is the stable selection of `data` by `Keep`.
- `markers.dfy` (`MapMarkers`): `PlaceMarkers` is the marker loop. It skips
  a listing unless both coordinates are truthy, counts the rest in `shown`,
  and builds a `Marker` for each. A marker holds the position, the popup
  fields, the tooltip and the colour (red exactly when the price changed).
  The tooltip is the title as `listing.get("title", "No title")` returns
  it. For a `null` title that is `None`, so the marker has no tooltip, while
  the popup's f-string shows "None".
  `dashboard.dfy` (`Dashboard`) chains the two loops. It adds the count of
  loaded listings for the summary line.

Two helper modules support these layers:

- `text.dfy` (`Text`) models `str.lower()` on ASCII letters, `str.strip()`
  and the substring test `needle in hay`.
- `seqs.dfy` (`Seqs`) gives the stable filter `Select` once, with its
  properties: order-preserving subsequence, composition of filters, and the
  count of selected positions.

Two details of the room filter at app.py:68-75 shape `RoomClause`:

- An option leaves the category unconstrained only when it lower-cases to
  "all", or when it mentions none of "1", "2" and "garz"
  (`UnknownRoomOption`).
- The three token tests run one after another, so an option such as "12"
  would require both digits in the category.

## Model

| member | source | states |
|---|---|---|
| `Listings.AsStr` | app.py:54-56 | `str(l.get(key, ""))`: only a missing key or an empty string read as empty (a `null` reads as "None"), a string reads as itself, and apart from a missing key the reading is the one the popup shows |
| `Listings.Tooltip` | app.py:97-112 | the tooltip is `None` exactly when the title is `null`; otherwise it is the title text the popup shows ("No title" for a missing key) |
| `Filtering.SearchNeedle` | app.py:41-49 | the normalised search text is no longer than the raw text, has no upper-case ASCII letter and no whitespace at either end, and is empty exactly when the box holds only whitespace |
| `Filtering.Combined` | app.py:77-81 | joining the three lower-cased fields with spaces equals lower-casing the joined raw fields |
| `Filtering.PriceClause` | app.py:57-61 | the price clause admits no listing when the minimum exceeds the maximum |
| `Filtering.ChangeClause` | app.py:64-65 | with the checkbox unticked the clause admits every listing |
| `Filtering.RoomClause` | app.py:68-75 | an option that lower-cases to "all" admits every listing, and so does every option for a category holding "1", "2" and "garz" |
| `Filtering.TextClause` | app.py:78-81 | an empty search text admits every listing; a listing passing a search text has a combined string at least as long as the text |
| `Filtering.Keep` | app.py:59-83 | a listing that passes all four clauses has a truthy price, the bounds do not cross, and with the checkbox ticked its price changed |
| `Filtering.FilterListings` | app.py:52-83 | the filtering loop returns exactly the in-order selection of the listings passing all four clauses; its length is at most that of the input and every listing it returns comes from the input and passes all four clauses |
| `Filtering.FilterIsOrderedSubsequence` | app.py:52-83 | the output is the input read at strictly increasing positions (nothing reordered or duplicated), and a position is read iff its listing passes all four clauses |
| `Filtering.FilterComplete` | app.py:53-83 | a listing is dropped only through one of the four clauses: every listing passing all of them appears in the output |
| `Filtering.FilterIdempotent` | app.py:52-83 | filtering the output again with the same settings changes nothing |
| `Filtering.KeptPriceInRange` | app.py:57-61 | every kept listing has a present, non-zero price between the minimum and the maximum, so a listing with a missing or zero price is never kept |
| `Filtering.CrossedBoundsEmpty` | app.py:60-61 | a minimum above the maximum leaves the output empty |
| `Filtering.WiderPriceRange` | app.py:60-61 | widening the price bounds keeps every listing that was kept; the narrow result is the wide result filtered again |
| `Filtering.ShowChangedNarrows` | app.py:64-65 | ticking "only changed" gives the unticked result restricted, in order, to listings whose price changed; when ticked every kept listing has a changed price; unticked the clause removes nothing |
| `Filtering.RoomAll` | app.py:68 | the option "All" imposes no room constraint |
| `Filtering.RoomOne` | app.py:68-71 | the option "1" passes a listing iff "1" occurs in its lower-cased category |
| `Filtering.RoomTwo` | app.py:68-73 | the option "2" passes a listing iff "2" occurs in its lower-cased category |
| `Filtering.RoomStudio` | app.py:68-75 | the option "Garzónky" passes a listing iff "garz" occurs in its lower-cased category |
| `Filtering.RoomBothDigits` | app.py:70-73 | a category containing both "1" and "2" passes both digit options |
| `Filtering.UnknownRoomOption` | app.py:68-75 | an option mentioning none of "1", "2", "garz" imposes no constraint |
| `Filtering.KeptMatchesSearch` | app.py:78-81 | under a non-empty search text every kept listing contains it in lower(title + " " + category + " " + county) |
| `Filtering.BlankSearchRemovesNothing` | app.py:41-81 | an empty or all-whitespace search box gives the same output as an empty one, and the text clause then removes nothing |
| `Filtering.SearchIgnoresCase` | app.py:41-49 | two search inputs equal after lower-casing select the same listings |
| `Filtering.NullCountyMatchesNone` | app.py:54-56 | a `null` county is read as "None", so such a listing matches the search text "none" |
| `MapMarkers.MarkerFor` | app.py:97-118 | a marker sits at its listing's non-zero coordinates, is red exactly when the price changed, its popup holds the title as the f-string renders it (a missing title "No title", a `null` one "None") and the listing's link, latest price, size, average price, average price per m², county and category; it has no tooltip exactly when the title is `null`, and otherwise its tooltip is the title its popup shows |
| `MapMarkers.PlaceMarkers` | app.py:89-118 | the marker loop returns exactly the markers of the positioned listings, and `shown` equals their number, which is at most the number of filtered listings |
| `MapMarkers.MarkersFollowListings` | app.py:90-118 | marker k belongs to the k-th listing whose latitude and longitude are both truthy, in order, at that listing's non-zero coordinates, is red iff its price changed and has no tooltip iff its title is `null`; a listing gets a marker iff both coordinates are truthy |
| `MapMarkers.ShownCountsPositioned` | app.py:89-96 | `shown` equals the number of listings whose latitude and longitude are both truthy |
| `Dashboard.Refresh` | app.py:51-122 | one refresh yields the filtered listings, their markers, `shown` and the total, with shown <= filtered <= total |
| `Dashboard.ShownCountsData` | app.py:52-96 | `shown` equals the number of loaded listings that pass all four clauses and have both coordinates |
| `Dashboard.ScenarioDefaultsAndMaximum` | app.py:27-118 | a 250000 two-room flat with coordinates is kept under the initial sidebar values and shown as one blue marker, and is dropped when the maximum is 200000 |
| `Dashboard.ScenarioStudio` | app.py:68-75 | a "Garzónka" category passes the "Garzónky" option and fails "2" |
| `Dashboard.ScenarioNoCoordinates` | app.py:89-96 | a kept listing with zero coordinates is counted as filtered but gets no marker |
| `Text.TrimLeft` | app.py:47 | leading-strip removes a prefix made only of whitespace and leaves a string that is empty or starts with a non-space |
| `Text.TrimRight` | app.py:47 | trailing-strip removes a suffix made only of whitespace and leaves a string that is empty or ends with a non-space |
| `Text.Lower` | app.py:54-56 | lower-casing keeps the length |
| `Text.LowerShape` | app.py:54-56 | lower-casing leaves no upper-case ASCII letter, changes only upper-case ASCII letters, and a second lower-casing changes nothing |
| `Text.Strip` | app.py:47 | the stripped search text is no longer than the input and is empty or starts and ends with a non-space character |
| `Text.StripSlice` | app.py:47 | the stripped text is the slice of the input that starts after the leading whitespace, and every character outside that slice is whitespace |
| `Text.StripEmptyIffBlank` | app.py:47 | stripping leaves nothing exactly when the input is all whitespace |
| `Text.Contains` | app.py:70-80 | a needle found in a string is no longer than the string |
| `Text.StripLower` | app.py:47-48 | `.strip().lower()` equals `.lower().strip()` |
| `Text.ContainsIffOccurs` | app.py:80 | the substring test holds iff the needle occurs at some position of the haystack |
| `Text.ContainsChar` | app.py:70 | a one-character needle occurs iff that character is in the string |
| `Seqs.SelectCompose` | app.py:59-83 | filtering by one clause and then another equals filtering once by their conjunction |
| `Seqs.SelectCount` | app.py:89-96 | the length of a stable selection is the number of positions whose element satisfies the condition |

## Left out

- `load_data` (app.py:11-15) reads the JSON file, and Streamlit caches the
  result. This is file I/O and library caching, so the model takes the
  loaded listings as a parameter.
- The page setup and sidebar widgets (app.py:18-49) are UI. Their values are
  the fields of `FilterConfig`. The model applies `.strip().lower()` to the
  raw search text.
- The folium map, the marker cluster, `st_folium` and the summary markdown
  (app.py:86-87, 109-122) are a third-party rendering widget. The model keeps
  the data handed to them: the marker's position, popup fields, tooltip
  (`None` when the title is `null`) and colour, plus the `shown` and total
  counts. The HTML text of the popup and
  the icon name are not modelled.
- Prices and coordinates are integers, not floats. Coordinates are in a
  fixed-point unit. Truthiness is "present and non-zero", as for Python
  numbers.
- `Text.Lower` lower-cases only the ASCII letters A-Z. Python's `str.lower()`
  also lower-cases non-ASCII letters such as "Ó". The room tokens "1", "2"
  and "garz" are ASCII, but a search text with an upper-case non-ASCII
  letter in a listing's fields can match in Python where the model does not.
- Text fields holding JSON numbers or booleans are not modelled, although
  `str()` would render them. Neither is a non-numeric `latest_price`, which
  would make the comparison raise. `price_changed` is a boolean; a missing
  key reads as false.
- The variant of the dashboard with a price-history popup is not part of
  this model.
