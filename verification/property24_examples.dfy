/** Worked examples from the listing scraper's own test sample: the
    category mapping of `[4, 5, 6]` and the links of the sample page. */
module Property24Examples {
  import opened Wrappers
  import opened Text
  import opened Seqs
  import opened Json
  import opened Property24

  const Path1: string := "/to-rent/stellenbosch/western-cape/459/12345"
  const Path2: string := "/to-rent/stellenbosch/western-cape/459/67890"

  /** The anchors of the sample page: two marked listings, the second
      linked twice. */
  function SampleAnchors(): seq<Anchor> {
    [Anchor("12345", Path1), Anchor("67890", Path2), Anchor("67890", Path2)]
  }

  lemma SampleSelected()
    ensures Selected(SampleAnchors(), {"12345", "67890"}) == [BaseUrl + Path1, BaseUrl + Path2, BaseUrl + Path2]
  {
    var anchors := SampleAnchors();
    var valid := {"12345", "67890"};
    var u1 := BaseUrl + Path1;
    var u2 := BaseUrl + Path2;
    assert anchors[1..] == [Anchor("67890", Path2), Anchor("67890", Path2)];
    assert anchors[1..][1..] == [Anchor("67890", Path2)];
    assert Accepts(valid, "12345") && Accepts(valid, "67890");
    assert Selected(anchors[1..][1..][1..], valid) == [];
    assert Selected(anchors[1..][1..], valid) == [u2];
    assert Selected(anchors[1..], valid) == [u2] + [u2];
    assert Selected(anchors, valid) == [u1] + [u2, u2];
  }

  lemma DedupRepeatedLast(u1: string, u2: string)
    requires u1 != u2
    ensures Dedup([u1, u2, u2]) == [u1, u2]
  {
    var sel := [u1, u2, u2];
    var none: seq<string> := [];
    assert none + [u1] == [u1];
    assert AppendNew(none, sel) == AppendNew([u1], sel[1..]);
    assert [u1] + [u2] == [u1, u2];
    assert AppendNew([u1], sel[1..]) == AppendNew([u1, u2], sel[1..][1..]);
    assert sel[1..][1..][0] in [u1, u2];
    assert AppendNew([u1, u2], sel[1..][1..]) == AppendNew([u1, u2], sel[1..][1..][1..]);
  }

  /** The sample page yields each linked listing once, in page order. */
  lemma ExtractionExample()
    ensures ExtractListingUrls(SampleAnchors(), {"12345", "67890"}) == [BaseUrl + Path1, BaseUrl + Path2]
  {
    SampleSelected();
    var u1 := BaseUrl + Path1;
    var u2 := BaseUrl + Path2;
    assert u1[|u1| - 1] != u2[|u2| - 1];
    DedupRepeatedLast(u1, u2);
  }

  lemma CategoryExample()
    ensures BuildPropertyCategories([Field("propertyTypes", JList([JInt(4), JInt(5), JInt(6)]))])
      == ["House", "ApartmentOrFlat", "Townhouse"]
  {
    var types := [JInt(4), JInt(5), JInt(6)];
    var payload := [Field("propertyTypes", JList(types))];
    assert Get(payload, "propertyTypes") == JList(types);
    MappedExample();
    DistinctCategoriesExample();
  }

  lemma MappedExample()
    ensures MappedCategories([JInt(4), JInt(5), JInt(6)]) == ["House", "ApartmentOrFlat", "Townhouse"]
  {
    var types := [JInt(4), JInt(5), JInt(6)];
    assert types[1..] == [JInt(5), JInt(6)];
    assert types[1..][1..] == [JInt(6)];
  }

  lemma DistinctCategoriesExample()
    ensures Dedup(["House", "ApartmentOrFlat", "Townhouse"]) == ["House", "ApartmentOrFlat", "Townhouse"]
  {
    DedupOfDistinct(["House", "ApartmentOrFlat", "Townhouse"]);
  }
}
