/** The marker pass of the dashboard: every filtered listing whose latitude
    and longitude are both truthy becomes one map marker, coloured by whether
    its price changed; the others are skipped. */
module MapMarkers {
  import opened Seqs
  import opened Listings

  datatype Colour = Red | Blue

  /** The fields a marker's popup shows, as they are read from the listing. */
  datatype Popup = Popup(
    title: string,
    link: Field,
    latestPrice: Option<int>,
    sizeM2: Option<int>,
    avgPrice: Option<int>,
    avgPricePerM2: Option<int>,
    county: Field,
    category: Field)

  /** A marker as handed to the map: its position, its popup, its tooltip
      (`None` draws no tooltip) and its icon colour. */
  datatype Marker = Marker(lat: int, lon: int, popup: Popup, tooltip: Option<string>, colour: Colour)

  /** Both coordinates are truthy (present and non-zero). */
  predicate Positioned(l: Listing) {
    Truthy(l.latitude) && Truthy(l.longitude)
  }

  /** The marker built for one positioned listing: it sits at the listing's
      non-zero coordinates, is red exactly when the price changed, its popup
      shows the listing's title (as the f-string renders it) and fields, it has no
      tooltip exactly when the title is `null`, and its tooltip, when there is
      one, is the title its popup shows. */
  function MarkerFor(l: Listing): (r: Marker)
    requires Positioned(l)
    ensures Some(r.lat) == l.latitude && r.lat != 0
    ensures Some(r.lon) == l.longitude && r.lon != 0
    ensures r.colour == Red <==> l.priceChanged
    ensures r.popup == Popup(DisplayTitle(l.title), l.link, l.latestPrice, l.sizeM2,
                             l.avgPrice, l.avgPricePerM2, l.county, l.category)
    ensures r.tooltip == None <==> l.title == Null
    ensures r.tooltip.Some? ==> r.tooltip.value == r.popup.title
  {
    var title := DisplayTitle(l.title);
    Marker(l.latitude.value, l.longitude.value,
           Popup(title, l.link, l.latestPrice, l.sizeM2, l.avgPrice, l.avgPricePerM2,
                 l.county, l.category),
           Tooltip(l.title),
           if l.priceChanged then Red else Blue)
  }

  /** The markers for the positioned listings of `filtered`, in order. */
  function Markers(filtered: seq<Listing>): seq<Marker> {
    var placed := Select(filtered, Positioned);
    seq(|placed|, k requires 0 <= k < |placed| => MarkerFor(placed[k]))
  }

  lemma MarkersSnoc(s: seq<Listing>, l: Listing)
    ensures Markers(s + [l]) == if Positioned(l) then Markers(s) + [MarkerFor(l)] else Markers(s)
  {
    SelectSnoc(s, l, Positioned);
  }

  /** The marker loop: skips a listing without both coordinates, counts the
      others in `shown` and adds one marker for each. */
  method PlaceMarkers(filtered: seq<Listing>) returns (markers: seq<Marker>, shown: nat)
    ensures markers == Markers(filtered)
    ensures shown == |markers| <= |filtered|
  {
    markers, shown := [], 0;
    for i := 0 to |filtered|
      invariant markers == Markers(filtered[..i])
      invariant shown == |markers|
    {
      var listing := filtered[i];
      assert filtered[..i + 1] == filtered[..i] + [listing];
      MarkersSnoc(filtered[..i], listing);
      var lat := listing.latitude;
      var lon := listing.longitude;
      if !(lat.Some? && lat.value != 0) || !(lon.Some? && lon.value != 0) {
        continue;
      }

      shown := shown + 1;
      var title := DisplayTitle(listing.title);
      var popup := Popup(title, listing.link, listing.latestPrice, listing.sizeM2,
                         listing.avgPrice, listing.avgPricePerM2, listing.county,
                         listing.category);
      var tooltip := Tooltip(listing.title);
      var colour := if listing.priceChanged then Red else Blue;
      markers := markers + [Marker(lat.value, lon.value, popup, tooltip, colour)];
    }
    assert filtered[..|filtered|] == filtered;
  }

  /** Marker `k` belongs to the `k`-th positioned listing: the markers follow
      the listings' order, sit at their non-zero coordinates and are red
      exactly when the listing's price changed, have no tooltip exactly when
      the listing's title is `null`; a listing gets a marker iff
      both its coordinates are truthy. */
  lemma MarkersFollowListings(filtered: seq<Listing>)
    ensures var ms, ix := Markers(filtered), SelectedIndices(filtered, Positioned);
      |ms| == |ix| &&
      (forall k :: 0 <= k < |ix| ==>
        ix[k] < |filtered| && Positioned(filtered[ix[k]]) &&
        ms[k] == MarkerFor(filtered[ix[k]]) &&
        Some(ms[k].lat) == filtered[ix[k]].latitude && ms[k].lat != 0 &&
        Some(ms[k].lon) == filtered[ix[k]].longitude && ms[k].lon != 0 &&
        (ms[k].colour == Red <==> filtered[ix[k]].priceChanged) &&
        (ms[k].tooltip == None <==> filtered[ix[k]].title == Null)) &&
      (forall k, m :: 0 <= k < m < |ix| ==> ix[k] < ix[m]) &&
      (forall i :: 0 <= i < |filtered| ==> (i in ix <==> Positioned(filtered[i])))
  {
    SelectIsOrderedSubsequence(filtered, Positioned);
    var placed := Select(filtered, Positioned);
    assert forall k :: 0 <= k < |placed| ==> placed[k] in placed;
  }

  /** The count of shown markers is the number of listings whose latitude
      and longitude are both truthy, and never exceeds the listings given. */
  lemma ShownCountsPositioned(filtered: seq<Listing>)
    ensures |Markers(filtered)| == |set i | 0 <= i < |filtered| && Positioned(filtered[i])|
    ensures |Markers(filtered)| <= |filtered|
  {
    SelectCount(filtered, Positioned);
    assert |Markers(filtered)| == |Select(filtered, Positioned)|;
    MatchingMembers(filtered, Positioned);
    assert Matching(filtered, Positioned) == set i | 0 <= i < |filtered| && Positioned(filtered[i]);
  }
}
