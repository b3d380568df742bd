/** One refresh of the dashboard: filter the loaded listings with the sidebar
    values, place the markers and report "shown / total". */
module Dashboard {
  import opened Seqs
  import Text
  import opened Listings
  import opened Filtering
  import opened MapMarkers

  /** The body of the page's main routine once the data is loaded and the
      sidebar is read: the filtering loop, then the marker loop, then the
      two numbers of the summary line. */
  method Refresh(data: seq<Listing>, cfg: FilterConfig)
    returns (filtered: seq<Listing>, markers: seq<Marker>, shown: nat, total: nat)
    ensures filtered == Filtered(data, cfg)
    ensures markers == Markers(filtered)
    ensures shown == |markers| && total == |data|
    ensures shown <= |filtered| <= total
  {
    filtered := FilterListings(data, cfg);
    markers, shown := PlaceMarkers(filtered);
    total := |data|;
  }

  predicate KeptAndPositioned(l: Listing, cfg: FilterConfig) {
    Keep(l, cfg) && Positioned(l)
  }

  /** The shown count is the number of loaded listings that pass all four
      clauses and have both coordinates. */
  lemma ShownCountsData(data: seq<Listing>, cfg: FilterConfig)
    ensures |Markers(Filtered(data, cfg))| ==
            |set i | 0 <= i < |data| && Keep(data[i], cfg) && Positioned(data[i])|
  {
    var both := l => KeptAndPositioned(l, cfg);
    SelectCompose(data, KeepFn(cfg), Positioned, both);
    assert |Markers(Filtered(data, cfg))| == |Select(data, both)|;
    SelectCount(data, both);
    MatchingMembers(data, both);
    assert Matching(data, both) ==
           set i | 0 <= i < |data| && Keep(data[i], cfg) && Positioned(data[i]);
  }

  /** A two-room flat priced 250000 with coordinates and an unchanged price:
      with the initial sidebar values it is matched and shown as a blue
      marker; with the maximum lowered to 200000 it is not matched. */
  lemma ScenarioDefaultsAndMaximum()
    ensures var l := Listing(Str("Byt"), Str("2-izbový"), Str("Ružinov"), Absent,
                             Some(250000), None, None, None, Some(48), Some(17), false);
      Filtered([l], DefaultConfig) == [l] &&
      Markers([l]) == [MarkerFor(l)] && MarkerFor(l).colour == Blue &&
      Filtered([l], DefaultConfig.(maxPrice := 200000)) == []
  {
    var l := Listing(Str("Byt"), Str("2-izbový"), Str("Ružinov"), Absent,
                     Some(250000), None, None, None, Some(48), Some(17), false);
    RoomAll(l);
    assert Keep(l, DefaultConfig);
    SelectSnoc([], l, KeepFn(DefaultConfig));
    SelectSnoc([], l, Positioned);
    CrossedBoundsEmpty([l], DefaultConfig.(minPrice := 250000, maxPrice := 200000));
    assert !Keep(l, DefaultConfig.(maxPrice := 200000));
    SelectSnoc([], l, KeepFn(DefaultConfig.(maxPrice := 200000)));
  }

  lemma StudioLower()
    ensures Text.Lower("Garzónka") == "garzónka"
  {
  }

  lemma StudioTokens()
    ensures Text.Contains("garzónka", "garz") && !Text.Contains("garzónka", "2")
  {
    assert Text.IsPrefix("garz", "garzónka");
    Text.ContainsChar("garzónka", '2');
  }

  /** A studio, category "Garzónka", passes the "Garzónky" option and fails
      "2". */
  lemma ScenarioStudio(l: Listing)
    requires l.category == Str("Garzónka")
    ensures RoomClause(l, "Garzónky") && !RoomClause(l, "2")
  {
    StudioLower();
    StudioTokens();
    RoomStudio(l);
    RoomTwo(l);
  }

  /** A listing with a valid price but zero coordinates is matched and
      counted in the filtered total, yet gets no marker. */
  lemma ScenarioNoCoordinates()
    ensures var l := Listing(Str("Byt"), Str("3-izbový"), Str("Petržalka"), Absent,
                             Some(180000), None, None, None, Some(0), Some(0), true);
      Filtered([l], DefaultConfig) == [l] && Markers([l]) == []
  {
    var l := Listing(Str("Byt"), Str("3-izbový"), Str("Petržalka"), Absent,
                     Some(180000), None, None, None, Some(0), Some(0), true);
    RoomAll(l);
    SelectSnoc([], l, KeepFn(DefaultConfig));
    SelectSnoc([], l, Positioned);
  }
}
