/** The filtering pass of the dashboard: every listing is tested against
    four AND-combined clauses (price, price change, room type, free text) and
    the ones that pass are kept in their original order. */
module Filtering {
  import opened Text
  import opened Seqs
  import opened Listings

  /** The sidebar values: the price bounds, the "only changed" checkbox, the
      selected room option and the raw contents of the search box. */
  datatype FilterConfig = FilterConfig(
    minPrice: int,
    maxPrice: int,
    showChanged: bool,
    roomFilter: string,
    searchInput: string)

  /** The sidebar's initial values. */
  const DefaultConfig := FilterConfig(0, 300000, false, "All", "")

  /** The search text after `.strip().lower()`: no longer than the raw
      text, free of upper-case ASCII letters and of whitespace at either end,
      and empty (so the search is off) exactly when the box holds only
      whitespace. */
  function SearchNeedle(cfg: FilterConfig): (r: string)
    ensures |r| <= |cfg.searchInput|
    ensures forall i :: 0 <= i < |r| ==> !('A' <= r[i] <= 'Z')
    ensures r == [] || (!IsSpace(r[0]) && !IsSpace(r[|r| - 1]))
    ensures r == [] <==> forall i :: 0 <= i < |cfg.searchInput| ==> IsSpace(cfg.searchInput[i])
  {
    var stripped := Strip(cfg.searchInput);
    StripEmptyIffBlank(cfg.searchInput);
    LowerSpacesAt(stripped);
    LowerShape(stripped);
    Lower(stripped)
  }

  /** `f"{title} {category} {county}"` over the lower-cased fields: the same
      text as lower-casing the three raw readings joined by spaces. */
  function Combined(l: Listing): (r: string)
    ensures r == Lower(AsStr(l.title) + " " + AsStr(l.category) + " " + AsStr(l.county))
  {
    LowerAppend(AsStr(l.title) + " " + AsStr(l.category) + " ", AsStr(l.county));
    LowerAppend(AsStr(l.title) + " " + AsStr(l.category), " ");
    LowerAppend(AsStr(l.title) + " ", AsStr(l.category));
    LowerAppend(AsStr(l.title), " ");
    assert Lower(" ") == " ";
    Lower(AsStr(l.title)) + " " + Lower(AsStr(l.category)) + " " + Lower(AsStr(l.county))
  }

  /** Clause 1: the price is truthy and lies within the bounds; bounds that
      cross admit no listing. */
  predicate PriceClause(l: Listing, cfg: FilterConfig)
    ensures PriceClause(l, cfg) ==> cfg.minPrice <= cfg.maxPrice
  {
    Truthy(l.latestPrice) && cfg.minPrice <= l.latestPrice.value <= cfg.maxPrice
  }

  /** Clause 2: with the checkbox ticked, the price must have changed;
      unticked, the clause admits every listing. */
  predicate ChangeClause(l: Listing, cfg: FilterConfig)
    ensures !cfg.showChanged ==> ChangeClause(l, cfg)
  {
    cfg.showChanged ==> l.priceChanged
  }

  /** Clause 3: unless the option reads "all" in any case, each of the
      tokens "1", "2" and "garz" found in the option must also occur in the
      lower-cased category. The option "all" admits every listing, and so
      does every option a category holding all three tokens. */
  predicate RoomClause(l: Listing, room: string)
    ensures Lower(room) == "all" ==> RoomClause(l, room)
    ensures var category := Lower(AsStr(l.category));
      Contains(category, "1") && Contains(category, "2") && Contains(category, "garz") ==>
      RoomClause(l, room)
  {
    var category := Lower(AsStr(l.category));
    Lower(room) != "all" ==>
      (Contains(room, "1") ==> Contains(category, "1")) &&
      (Contains(room, "2") ==> Contains(category, "2")) &&
      (Contains(Lower(room), "garz") ==> Contains(category, "garz"))
  }

  /** Clause 4: a non-empty search text must occur in Combined, so it is
      no longer than Combined; an empty one admits every listing. */
  predicate TextClause(l: Listing, needle: string)
    ensures needle == [] ==> TextClause(l, needle)
    ensures TextClause(l, needle) ==> |needle| <= |Combined(l)|
  {
    needle != [] ==> Contains(Combined(l), needle)
  }

  /** A listing survives the filtering pass: it passes all four clauses, so
      in particular its price is truthy, the bounds do not cross and, with
      the checkbox ticked, its price changed. */
  predicate Keep(l: Listing, cfg: FilterConfig)
    ensures Keep(l, cfg) ==>
      Truthy(l.latestPrice) && cfg.minPrice <= cfg.maxPrice && (cfg.showChanged ==> l.priceChanged)
  {
    PriceClause(l, cfg) && ChangeClause(l, cfg) && RoomClause(l, cfg.roomFilter) &&
    TextClause(l, SearchNeedle(cfg))
  }

  function KeepFn(cfg: FilterConfig): Listing -> bool {
    l => Keep(l, cfg)
  }

  /** What the filtering pass produces. */
  function Filtered(data: seq<Listing>, cfg: FilterConfig): seq<Listing> {
    Select(data, KeepFn(cfg))
  }

  /** One more listing scanned: it is appended exactly when it is kept. */
  lemma FilteredStep(data: seq<Listing>, i: nat, cfg: FilterConfig)
    requires i < |data|
    ensures Filtered(data[..i + 1], cfg) ==
            if Keep(data[i], cfg) then Filtered(data[..i], cfg) + [data[i]] else Filtered(data[..i], cfg)
  {
    assert data[..i + 1] == data[..i] + [data[i]];
    SelectSnoc(data[..i], data[i], KeepFn(cfg));
  }

  /** A listing that fails a clause leaves the result as it was. */
  lemma FilteredSkip(data: seq<Listing>, i: nat, cfg: FilterConfig)
    requires i < |data| && !Keep(data[i], cfg)
    ensures Filtered(data[..i + 1], cfg) == Filtered(data[..i], cfg)
  {
    FilteredStep(data, i, cfg);
  }

  /** The filtering loop of the dashboard: scans `data` in order, skips a
      listing at the first clause it fails and appends the others. */
  method FilterListings(data: seq<Listing>, cfg: FilterConfig) returns (filtered: seq<Listing>)
    ensures filtered == Filtered(data, cfg)
    ensures |filtered| <= |data|
    ensures forall l :: l in filtered ==> l in data && Keep(l, cfg)
  {
    var textSearch := SearchNeedle(cfg);
    filtered := [];
    for i := 0 to |data|
      invariant filtered == Filtered(data[..i], cfg)
    {
      var l := data[i];
      var title := Lower(AsStr(l.title));
      var category := Lower(AsStr(l.category));
      var county := Lower(AsStr(l.county));
      var price := l.latestPrice;

      if !(price.Some? && price.value != 0 && cfg.minPrice <= price.value <= cfg.maxPrice) {
        assert !PriceClause(l, cfg);
        FilteredSkip(data, i, cfg);
        continue;
      }

      if cfg.showChanged && !l.priceChanged {
        assert !ChangeClause(l, cfg);
        FilteredSkip(data, i, cfg);
        continue;
      }

      if Lower(cfg.roomFilter) != "all" {
        if Contains(cfg.roomFilter, "1") && !Contains(category, "1") {
          assert !RoomClause(l, cfg.roomFilter);
          FilteredSkip(data, i, cfg);
          continue;
        }
        if Contains(cfg.roomFilter, "2") && !Contains(category, "2") {
          assert !RoomClause(l, cfg.roomFilter);
          FilteredSkip(data, i, cfg);
          continue;
        }
        if Contains(Lower(cfg.roomFilter), "garz") && !Contains(category, "garz") {
          assert !RoomClause(l, cfg.roomFilter);
          FilteredSkip(data, i, cfg);
          continue;
        }
      }

      if textSearch != [] {
        var combined := title + " " + category + " " + county;
        assert combined == Combined(l);
        if !Contains(combined, textSearch) {
          assert !TextClause(l, SearchNeedle(cfg));
          FilteredSkip(data, i, cfg);
          continue;
        }
      }

      assert Keep(l, cfg);
      FilteredStep(data, i, cfg);
      filtered := filtered + [l];
    }
    assert data[..|data|] == data;
  }

  /** The output is `data` read at strictly increasing positions, so nothing
      is reordered or duplicated, and a position is read exactly when its
      listing passes all four clauses: a listing is dropped only by one of
      them. */
  lemma FilterIsOrderedSubsequence(data: seq<Listing>, cfg: FilterConfig)
    ensures var r, ix := Filtered(data, cfg), SelectedIndices(data, KeepFn(cfg));
      |ix| == |r| &&
      (forall k :: 0 <= k < |ix| ==> ix[k] < |data| && r[k] == data[ix[k]]) &&
      (forall k, m :: 0 <= k < m < |ix| ==> ix[k] < ix[m]) &&
      (forall i :: 0 <= i < |data| ==> (i in ix <==> Keep(data[i], cfg)))
  {
    SelectIsOrderedSubsequence(data, KeepFn(cfg));
  }

  /** Every listing that passes all four clauses is in the output. */
  lemma FilterComplete(data: seq<Listing>, cfg: FilterConfig, i: nat)
    requires i < |data| && Keep(data[i], cfg)
    ensures data[i] in Filtered(data, cfg)
  {
    FilterIsOrderedSubsequence(data, cfg);
    var ix := SelectedIndices(data, KeepFn(cfg));
    var k :| 0 <= k < |ix| && ix[k] == i;
  }

  /** A kept listing has a truthy price within the bounds; one with a missing
      or zero price is never kept, whatever the other fields hold. */
  lemma KeptPriceInRange(data: seq<Listing>, cfg: FilterConfig, l: Listing)
    requires l in Filtered(data, cfg)
    ensures l.latestPrice.Some? && l.latestPrice.value != 0
    ensures cfg.minPrice <= l.latestPrice.value <= cfg.maxPrice
  {
  }

  /** Bounds that cross leave nothing to show. */
  lemma CrossedBoundsEmpty(data: seq<Listing>, cfg: FilterConfig)
    requires cfg.minPrice > cfg.maxPrice
    ensures Filtered(data, cfg) == []
  {
    var r := Filtered(data, cfg);
    if r != [] {
      assert r[0] in r;
      KeptPriceInRange(data, cfg, r[0]);
    }
  }

  predicate Changed(l: Listing) {
    l.priceChanged
  }

  /** Ticking "only changed" keeps exactly the listings of the unticked
      result whose price changed, in the same order; unticked, the clause
      removes nothing. */
  lemma ShowChangedNarrows(data: seq<Listing>, cfg: FilterConfig)
    ensures Filtered(data, cfg.(showChanged := true)) ==
            Select(Filtered(data, cfg.(showChanged := false)), Changed)
    ensures cfg.showChanged ==> forall l :: l in Filtered(data, cfg) ==> l.priceChanged
    ensures forall l :: ChangeClause(l, cfg.(showChanged := false))
  {
    var off, on := cfg.(showChanged := false), cfg.(showChanged := true);
    forall l
      ensures KeepFn(on)(l) == (KeepFn(off)(l) && Changed(l))
    {
      KeepTicked(l, cfg);
    }
    SelectCompose(data, KeepFn(off), Changed, KeepFn(on));
  }

  /** With the box ticked a listing is kept iff it is kept unticked and its
      price changed. */
  lemma KeepTicked(l: Listing, cfg: FilterConfig)
    ensures Keep(l, cfg.(showChanged := true)) ==
            (Keep(l, cfg.(showChanged := false)) && l.priceChanged)
  {
    assert SearchNeedle(cfg.(showChanged := true)) == SearchNeedle(cfg.(showChanged := false));
  }

  /** "All" constrains nothing. */
  lemma RoomAll(l: Listing)
    ensures RoomClause(l, "All")
  {
    assert Lower("All") == "all";
  }

  /** "1" asks for a "1" in the lower-cased category. */
  lemma RoomOne(l: Listing)
    ensures RoomClause(l, "1") <==> Contains(Lower(AsStr(l.category)), "1")
  {
    assert Lower("1") == "1";
    ContainsChar("1", '2');
    assert !Contains("1", "garz");
  }

  /** "2" asks for a "2" in the lower-cased category. */
  lemma RoomTwo(l: Listing)
    ensures RoomClause(l, "2") <==> Contains(Lower(AsStr(l.category)), "2")
  {
    assert Lower("2") == "2";
    ContainsChar("2", '1');
    assert !Contains("2", "garz");
  }

  lemma StudioOptionLower()
    ensures Lower("Garzónky") == "garzónky"
  {
  }

  lemma StudioOptionDigits()
    ensures !Contains("Garzónky", "1") && !Contains("Garzónky", "2")
  {
    ContainsChar("Garzónky", '1');
    ContainsChar("Garzónky", '2');
  }

  lemma StudioOptionToken()
    ensures Contains("garzónky", "garz")
  {
    assert IsPrefix("garz", "garzónky");
  }

  /** "Garzónky" asks for "garz" in the lower-cased category. */
  lemma RoomStudio(l: Listing)
    ensures RoomClause(l, "Garzónky") <==> Contains(Lower(AsStr(l.category)), "garz")
  {
    StudioOptionLower();
    StudioOptionDigits();
    StudioOptionToken();
  }

  /** A category holding both digits passes either digit option. */
  lemma RoomBothDigits(l: Listing)
    requires Contains(Lower(AsStr(l.category)), "1") && Contains(Lower(AsStr(l.category)), "2")
    ensures RoomClause(l, "1") && RoomClause(l, "2")
  {
    RoomOne(l);
    RoomTwo(l);
  }

  /** An option that mentions none of the three tokens constrains nothing,
      whatever it is. */
  lemma UnknownRoomOption(l: Listing, room: string)
    requires !Contains(room, "1") && !Contains(room, "2") && !Contains(Lower(room), "garz")
    ensures RoomClause(l, room)
  {
  }

  /** Every listing kept under a non-empty search text holds that text in
      `lower(title + " " + category + " " + county)`. */
  lemma KeptMatchesSearch(data: seq<Listing>, cfg: FilterConfig, l: Listing)
    requires l in Filtered(data, cfg)
    ensures SearchNeedle(cfg) != [] ==>
      Contains(Lower(AsStr(l.title) + " " + AsStr(l.category) + " " + AsStr(l.county)),
               SearchNeedle(cfg))
  {
  }

  /** A `null` text field is rendered by `str` as "None", so a listing whose
      county is `null` matches the search text "none". */
  lemma NullCountyMatchesNone(l: Listing)
    requires l.county == Null
    ensures TextClause(l, "none")
  {
    assert Lower("None") == "none";
    assert IsPrefix("none", "none");
    ContainsInMiddle(Lower(AsStr(l.title)) + " " + Lower(AsStr(l.category)) + " ", "none", "", "none");
    assert Combined(l) == Lower(AsStr(l.title)) + " " + Lower(AsStr(l.category)) + " " + "none" + "";
  }

  /** Keep reads the search box only through its normalised text. */
  lemma KeepSameNeedle(l: Listing, cfg: FilterConfig, other: string)
    requires SearchNeedle(cfg.(searchInput := other)) == SearchNeedle(cfg)
    ensures Keep(l, cfg.(searchInput := other)) == Keep(l, cfg)
  {
  }

  /** An empty or all-whitespace search box removes nothing. */
  lemma BlankSearchRemovesNothing(data: seq<Listing>, cfg: FilterConfig)
    requires forall i :: 0 <= i < |cfg.searchInput| ==> IsSpace(cfg.searchInput[i])
    ensures Filtered(data, cfg) == Filtered(data, cfg.(searchInput := ""))
    ensures forall l :: Keep(l, cfg) <==> PriceClause(l, cfg) && ChangeClause(l, cfg) && RoomClause(l, cfg.roomFilter)
  {
    StripBlank(cfg.searchInput);
    assert SearchNeedle(cfg) == [];
    StripBlank("");
    assert SearchNeedle(cfg.(searchInput := "")) == [];
    forall i | 0 <= i < |data|
      ensures KeepFn(cfg)(data[i]) == KeepFn(cfg.(searchInput := ""))(data[i])
    {
      KeepSameNeedle(data[i], cfg, "");
    }
    SelectAgree(data, KeepFn(cfg), KeepFn(cfg.(searchInput := "")));
  }

  /** The search is case-insensitive: two inputs that agree once lower-cased
      select the same listings. */
  lemma SearchIgnoresCase(data: seq<Listing>, cfg: FilterConfig, other: string)
    requires Lower(other) == Lower(cfg.searchInput)
    ensures Filtered(data, cfg.(searchInput := other)) == Filtered(data, cfg)
  {
    StripLower(other);
    StripLower(cfg.searchInput);
    assert SearchNeedle(cfg.(searchInput := other)) == SearchNeedle(cfg);
    forall i | 0 <= i < |data|
      ensures KeepFn(cfg.(searchInput := other))(data[i]) == KeepFn(cfg)(data[i])
    {
      KeepSameNeedle(data[i], cfg, other);
    }
    SelectAgree(data, KeepFn(cfg.(searchInput := other)), KeepFn(cfg));
  }

  /** Widening the price bounds never drops a kept listing: the narrow
      result is the wide result filtered again by the narrow bounds. */
  lemma WiderPriceRange(data: seq<Listing>, cfg: FilterConfig, lo: int, hi: int)
    requires lo <= cfg.minPrice && cfg.maxPrice <= hi
    ensures Filtered(data, cfg) ==
            Select(Filtered(data, cfg.(minPrice := lo, maxPrice := hi)), KeepFn(cfg))
    ensures forall l :: l in Filtered(data, cfg) ==> l in Filtered(data, cfg.(minPrice := lo, maxPrice := hi))
  {
    var wide := cfg.(minPrice := lo, maxPrice := hi);
    SelectNarrow(data, KeepFn(wide), KeepFn(cfg));
    forall l | l in Filtered(data, cfg)
      ensures l in Filtered(data, wide)
    {
      FilterIsOrderedSubsequence(data, cfg);
      var ix := SelectedIndices(data, KeepFn(cfg));
      var k :| 0 <= k < |ix| && Filtered(data, cfg)[k] == l;
      FilterComplete(data, wide, ix[k]);
    }
  }

  /** Filtering an already filtered list again changes nothing. */
  lemma FilterIdempotent(data: seq<Listing>, cfg: FilterConfig)
    ensures Filtered(Filtered(data, cfg), cfg) == Filtered(data, cfg)
  {
    SelectNarrow(data, KeepFn(cfg), KeepFn(cfg));
  }
}
