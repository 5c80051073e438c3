/** Listing URL construction and extraction of app/property24.py: the slug
    and category helpers, the choice between the single-location results
    path and the advanced-search query, the per-page link filter and the
    paginated fetch. Page contents are given as the listing-number markers
    and the `(number, path)` anchor matches the two regular expressions
    would find; the HTTP session is a function from URL to response. */
module Property24 {
  import opened Wrappers
  import opened Text
  import opened Seqs
  import opened Json
  import UrlEncode

  const BaseUrl: string := "https://www.property24.com"
  const AdvancedSearchPath: string := "/to-rent/advanced-search/results"
  const PageSize: nat := 20

  // ---------------------------------------------------------------------
  // _slugify

  /** The characters the pattern `[^a-z0-9]+` does not match. */
  predicate IsSlugChar(c: char) {
    IsAsciiLower(c) || IsDigit(c)
  }

  predicate NotSlugChar(c: char) {
    !IsSlugChar(c)
  }

  predicate IsHyphen(c: char) {
    c == '-'
  }

  predicate IsSlash(c: char) {
    c == '/'
  }

  /** Output of `_slugify`: lower-case letters, digits and single inner
      hyphens. */
  predicate IsSlug(t: string) {
    && (forall i :: 0 <= i < |t| ==> IsSlugChar(t[i]) || t[i] == '-')
    && (forall i :: 0 <= i < |t| - 1 ==> t[i] == '-' ==> t[i + 1] != '-')
    && (|t| > 0 ==> t[0] != '-' && t[|t| - 1] != '-')
  }

  /** The letters and digits of `s`, in order. */
  function SlugChars(s: string): (r: string)
    ensures forall i :: 0 <= i < |r| ==> IsSlugChar(r[i])
  {
    if |s| == 0 then ""
    else (if IsSlugChar(s[0]) then [s[0]] else "") + SlugChars(s[1..])
  }

  lemma {:induction false} SlugCharsConcat(a: string, b: string)
    ensures SlugChars(a + b) == SlugChars(a) + SlugChars(b)
  {
    if |a| > 0 {
      assert (a + b)[0] == a[0];
      assert (a + b)[1..] == a[1..] + b;
      SlugCharsConcat(a[1..], b);
    } else {
      assert a + b == b;
    }
  }

  lemma {:induction false} SlugCharsOfNone(s: string)
    requires forall i :: 0 <= i < |s| ==> !IsSlugChar(s[i])
    ensures SlugChars(s) == ""
  {
    if |s| > 0 {
      SlugCharsOfNone(s[1..]);
    }
  }

  /** Drops a leading run of characters the pattern matches. */
  function SkipRun(s: string): (r: string)
    ensures |r| <= |s| && r == s[|s| - |r|..]
    ensures |r| > 0 ==> IsSlugChar(r[0])
    ensures SlugChars(r) == SlugChars(s)
  {
    var k := LeadCount(s, NotSlugChar);
    assert s == s[..k] + s[k..];
    SlugCharsConcat(s[..k], s[k..]);
    SlugCharsOfNone(s[..k]);
    s[k..]
  }

  /** `re.sub(r"[^a-z0-9]+", "-", s)`: every maximal run of other characters
      becomes one hyphen; letters and digits stay, in order. */
  function CollapseRuns(s: string): (r: string)
    ensures forall i :: 0 <= i < |r| ==> IsSlugChar(r[i]) || r[i] == '-'
    ensures forall i :: 0 <= i < |r| - 1 ==> r[i] == '-' ==> r[i + 1] != '-'
    ensures |s| > 0 ==> |r| > 0 && (IsSlugChar(s[0]) <==> r[0] != '-')
    ensures SlugChars(r) == SlugChars(s)
    decreases |s|
  {
    if |s| == 0 then ""
    else if IsSlugChar(s[0]) then
      var rest := CollapseRuns(s[1..]);
      SlugCharsConcat([s[0]], rest);
      SlugCharsConcat([s[0]], s[1..]);
      assert s == [s[0]] + s[1..];
      [s[0]] + rest
    else
      var rest := CollapseRuns(SkipRun(s[1..]));
      SlugCharsConcat("-", rest);
      SlugCharsConcat([s[0]], s[1..]);
      assert s == [s[0]] + s[1..];
      "-" + rest
  }

  /** A letter or digit is kept where it stands. */
  lemma CollapseRunsSlugChar(c: char, t: string)
    requires IsSlugChar(c)
    ensures CollapseRuns([c] + t) == [c] + CollapseRuns(t)
  {
    assert ([c] + t)[0] == c;
    assert ([c] + t)[1..] == t;
  }

  /** A whole run of other characters, however long, becomes one hyphen. */
  lemma CollapseRunsSeparator(sep: string, t: string)
    requires |sep| > 0 && forall i :: 0 <= i < |sep| ==> !IsSlugChar(sep[i])
    requires |t| == 0 || IsSlugChar(t[0])
    ensures CollapseRuns(sep + t) == "-" + CollapseRuns(t)
  {
    var s := sep + t;
    assert s[0] == sep[0];
    assert s[1..] == sep[1..] + t;
    LeadCountPast(sep[1..], t, NotSlugChar);
    assert LeadCount(t, NotSlugChar) == 0;
    assert (sep[1..] + t)[|sep| - 1..] == t;
  }

  /** Text cut after a letter or digit collapses piece by piece: no run
      spans the cut. */
  lemma {:induction false} CollapseRunsConcat(a: string, b: string)
    requires |a| == 0 || IsSlugChar(a[|a| - 1])
    ensures CollapseRuns(a + b) == CollapseRuns(a) + CollapseRuns(b)
    decreases |a|
  {
    if |a| == 0 {
      assert a + b == b;
    } else {
      assert (a + b)[0] == a[0];
      assert (a + b)[1..] == a[1..] + b;
      if IsSlugChar(a[0]) {
        CollapseRunsConcat(a[1..], b);
        ConcatAssoc([a[0]], CollapseRuns(a[1..]), CollapseRuns(b));
      } else {
        var x := a[1..];
        assert IsSlugChar(x[|x| - 1]);
        var k := LeadCount(x, NotSlugChar);
        assert k < |x|;
        LeadCountStops(x, b, NotSlugChar);
        assert (x + b)[k..] == x[k..] + b;
        var y := SkipRun(x);
        assert y == x[k..] && y[|y| - 1] == x[|x| - 1];
        CollapseRunsConcat(y, b);
        ConcatAssoc("-", CollapseRuns(y), CollapseRuns(b));
      }
    }
  }

  /** `_slugify(value)`: strip, lower-case, collapse runs of other
      characters into hyphens, strip hyphens. The result is a slug holding
      exactly the letters and digits of the lower-cased input, in order. */
  function Slugify(value: string): (r: string)
    ensures IsSlug(r)
    ensures SlugChars(r) == SlugChars(Lower(Strip(value)))
  {
    var c := CollapseRuns(Lower(Strip(value)));
    TrimHyphensIsSlug(c);
    TrimHyphensKeepsSlugChars(c);
    Trim(c, IsHyphen)
  }

  /** The area of the examples: "Western Cape" becomes "western-cape". */
  lemma WesternCapeSlug()
    ensures Slugify("Western Cape") == "western-cape"
  {
    WesternCapeLowered();
    WesternCapeCollapses();
    WesternCapeTrimmed();
  }

  lemma WesternCapeLowered()
    ensures Lower(Strip("Western Cape")) == "western cape"
  {
    TrimKeptEnds("Western Cape", IsSpace);
    LowerOfAscii("Western Cape", "western cape");
  }

  lemma WesternCapeTrimmed()
    ensures Trim("western-cape", IsHyphen) == "western-cape"
  {
    TrimKeptEnds("western-cape", IsHyphen);
  }

  lemma WesternCapeCollapses()
    ensures CollapseRuns("western cape") == "western-cape"
  {
    assert "western cape" == "western" + [' '] + "cape";
    assert "western-cape" == "western" + "-" + "cape";
    CollapseTwoWords("western", ' ', "cape");
  }

  /** Two words of letters and digits around one other character collapse
      to the words joined by a hyphen. */
  lemma CollapseTwoWords(a: string, c: char, b: string)
    requires forall i :: 0 <= i < |a| ==> IsSlugChar(a[i])
    requires forall i :: 0 <= i < |b| ==> IsSlugChar(b[i])
    requires |a| > 0 && !IsSlugChar(c)
    ensures CollapseRuns(a + [c] + b) == a + "-" + b
  {
    ConcatAssoc(a, [c], b);
    CollapseRunsConcat(a, [c] + b);
    CollapseRunsOfSlugForm(a);
    CollapseRunsSeparator([c], b);
    CollapseRunsOfSlugForm(b);
    ConcatAssoc(a, "-", b);
  }

  /** Characters of slug form: letters, digits and hyphens, no two
      hyphens in a row; what `CollapseRuns` produces. */
  predicate IsSlugForm(c: string) {
    && (forall i :: 0 <= i < |c| ==> IsSlugChar(c[i]) || c[i] == '-')
    && (forall i :: 0 <= i < |c| - 1 ==> c[i] == '-' ==> c[i + 1] != '-')
  }

  lemma TrimHyphensIsSlug(c: string)
    requires IsSlugForm(c)
    ensures IsSlug(Trim(c, IsHyphen))
  {
    var r := Trim(c, IsHyphen);
    var k := LeadCount(c, IsHyphen);
    forall i | 0 <= i < |r|
      ensures IsSlugChar(r[i]) || r[i] == '-'
    {
      assert r[i] == c[k + i];
    }
    forall i | 0 <= i < |r| - 1
      ensures r[i] == '-' ==> r[i + 1] != '-'
    {
      assert r[i] == c[k + i] && r[i + 1] == c[k + i + 1];
    }
  }

  lemma TrimHyphensKeepsSlugChars(c: string)
    ensures SlugChars(Trim(c, IsHyphen)) == SlugChars(c)
  {
    var r := Trim(c, IsHyphen);
    var k := LeadCount(c, IsHyphen);
    ThreeWaySplit(c, k, k + |r|);
    SlugCharsBetweenHyphens(c[..k], r, c[k + |r|..]);
  }

  /** Hyphens around a string add no slug characters. */
  lemma SlugCharsBetweenHyphens(lead: string, mid: string, trail: string)
    requires forall i :: 0 <= i < |lead| ==> IsHyphen(lead[i])
    requires forall i :: 0 <= i < |trail| ==> IsHyphen(trail[i])
    ensures SlugChars(lead + mid + trail) == SlugChars(mid)
  {
    SlugCharsConcat(lead + mid, trail);
    SlugCharsConcat(lead, mid);
    SlugCharsOfNone(lead);
    SlugCharsOfNone(trail);
  }

  lemma {:induction false} CollapseRunsOfSlugForm(t: string)
    requires forall i :: 0 <= i < |t| ==> IsSlugChar(t[i]) || t[i] == '-'
    requires forall i :: 0 <= i < |t| - 1 ==> t[i] == '-' ==> t[i + 1] != '-'
    ensures CollapseRuns(t) == t
    decreases |t|
  {
    if |t| > 0 {
      CollapseRunsOfSlugForm(t[1..]);
      if !IsSlugChar(t[0]) {
        assert |t| > 1 ==> IsSlugChar(t[1]);
        assert LeadCount(t[1..], NotSlugChar) == 0;
        assert SkipRun(t[1..]) == t[1..];
      }
    }
  }

  /** A slug is its own slug. */
  lemma SlugOfSlug(t: string)
    requires IsSlug(t)
    ensures Slugify(t) == t
  {
    assert IsStripped(t) by {
      forall i | 0 <= i < |t| ensures !IsSpace(t[i]) {
        assert IsSlugChar(t[i]) || t[i] == '-';
      }
    }
    StripOfStripped(t);
    LowerKeepsLowerAlnum(t);
    CollapseRunsOfSlugForm(t);
    TrimKeptEnds(t, IsHyphen);
  }

  /** Applying `_slugify` twice is applying it once. */
  lemma SlugifyIdempotent(value: string)
    ensures Slugify(Slugify(value)) == Slugify(value)
  {
    SlugOfSlug(Slugify(value));
  }

  // ---------------------------------------------------------------------
  // _build_property_categories

  /** `PROPERTY_CATEGORY_MAP.get(code)`. */
  function CategoryOf(code: int): (r: Option<string>)
    ensures r.Some? <==> 1 <= code <= 12
    ensures r.Some? ==> r.value != ""
  {
    if code == 1 || code == 4 then Some("House")
    else if code == 2 || code == 5 then Some("ApartmentOrFlat")
    else if code == 3 || code == 6 then Some("Townhouse")
    else if code == 7 then Some("VacantLand")
    else if code == 8 then Some("CommercialProperty")
    else if code == 9 then Some("IndustrialProperty")
    else if code == 10 then Some("Farm")
    else if code == 11 then Some("GuestHouse")
    else if code == 12 then Some("FlatShare")
    else None
  }

  /** The category of one raw entry: `int(raw)` looked up in the map; an
      entry `int()` rejects is skipped. */
  function CategoryOfValue(raw: JValue): Option<string> {
    match PyInt(raw)
    case Some(code) => CategoryOf(code)
    case None => None
  }

  /** The categories of the entries that have one, in entry order. */
  function MappedCategories(raws: seq<JValue>): (r: seq<string>)
    ensures forall c :: c in r <==> exists v :: v in raws && CategoryOfValue(v) == Some(c)
  {
    if |raws| == 0 then []
    else
      var head := match CategoryOfValue(raws[0]) case Some(c) => [c] case None => [];
      assert forall v :: v in raws <==> v == raws[0] || v in raws[1..];
      head + MappedCategories(raws[1..])
  }

  /** The categories of a single entry: its own, if it has one. */
  lemma MappedCategoriesSingle(v: JValue)
    ensures MappedCategories([v]) == match CategoryOfValue(v) case Some(c) => [c] case None => []
  {
    assert [v][1..] == [];
  }

  /** Mapping keeps entry order: the categories of `a + b` are those of `a`
      followed by those of `b`. */
  lemma {:induction false} MappedCategoriesConcat(a: seq<JValue>, b: seq<JValue>)
    ensures MappedCategories(a + b) == MappedCategories(a) + MappedCategories(b)
    decreases |a|
  {
    if |a| == 0 {
      assert a + b == b;
    } else {
      assert (a + b)[0] == a[0];
      assert (a + b)[1..] == a[1..] + b;
      MappedCategoriesConcat(a[1..], b);
      var head := match CategoryOfValue(a[0]) case Some(c) => [c] case None => [];
      ConcatAssoc(head, MappedCategories(a[1..]), MappedCategories(b));
    }
  }

  /** `_build_property_categories(payload)`. */
  function BuildPropertyCategories(payload: seq<Field>): (r: seq<string>)
    ensures NoDups(r)
    ensures !IsSequence(Get(payload, "propertyTypes")) ==> r == []
    ensures IsSequence(Get(payload, "propertyTypes")) ==>
      forall c :: c in r <==>
        exists v :: v in Elements(Get(payload, "propertyTypes")) && CategoryOfValue(v) == Some(c)
    // Each category appears once, where its first entry stands.
    ensures IsSequence(Get(payload, "propertyTypes")) ==>
      r == FirstOccurrences(MappedCategories(Elements(Get(payload, "propertyTypes"))), [])
  {
    var types := Get(payload, "propertyTypes");
    if !IsSequence(types) then []
    else
      AppendNewIsFirstOccurrences([], MappedCategories(Elements(types)));
      Dedup(MappedCategories(Elements(types)))
  }

  // ---------------------------------------------------------------------
  // _build_listing_path

  /** `autoCompleteItems[0]` when the entry list is a non-empty sequence. */
  function FirstAutoCompleteItem(payload: seq<Field>): Option<JValue> {
    var items := Get(payload, "autoCompleteItems");
    if !IsSequence(items) || !Truthy(items) then None
    else Some(Elements(items)[0])
  }

  /** The area slug of a location entry: the normalised name when it is a
      non-blank string, else the name when it is a string. */
  function AreaSlug(item: seq<Field>): Option<string> {
    var normalized := Get(item, "normalizedName");
    var name := Get(item, "name");
    if normalized.JStr? && Strip(normalized.s) != "" then Some(Slugify(normalized.s))
    else if name.JStr? then Some(Slugify(name.s))
    else None
  }

  function ParentSlug(item: seq<Field>): string {
    var parent := Get(item, "parentName");
    if parent.JStr? then Slugify(parent.s) else ""
  }

  /** The `/`-separated segments of the results path: `/to-rent/{area}/{id}`
      or, with a parent slug, `/to-rent/{area}/{parent}/{id}`. */
  function PathSegments(area: string, parent: string, id: string): seq<string> {
    ["", "to-rent", area] + (if parent != "" then [parent] else []) + [id]
  }

  /** `_build_listing_path(payload)`; `Err` carries the `RuntimeError`. */
  function BuildListingPath(payload: seq<Field>): (r: Result<string, string>)
    ensures r.Err? <==>
      || FirstAutoCompleteItem(payload).None?
      || !FirstAutoCompleteItem(payload).value.JObj?
      || Get(FirstAutoCompleteItem(payload).value.fields, "id").JNull?
      || AreaSlug(FirstAutoCompleteItem(payload).value.fields).None?
  {
    match FirstAutoCompleteItem(payload)
    case None => Err("Payload missing autoCompleteItems entry")
    case Some(first) =>
      if !first.JObj? then Err("Invalid autoCompleteItems entry")
      else
        var item := first.fields;
        var locationId := Get(item, "id");
        if locationId.JNull? then Err("Payload missing location identifier")
        else match AreaSlug(item)
          case None => Err("Payload missing location name")
          case Some(area) =>
            Ok(Join("/", PathSegments(area, ParentSlug(item), PyStr(locationId))))
  }

  lemma SlugHasNoSlash(t: string)
    requires IsSlug(t)
    ensures NoCharIn(t, IsSlash)
  {
    forall i | 0 <= i < |t| ensures !IsSlash(t[i]) {
      assert IsSlugChar(t[i]) || t[i] == '-';
    }
  }

  lemma AreaSlugIsSlug(item: seq<Field>)
    ensures AreaSlug(item).Some? ==> IsSlug(AreaSlug(item).value)
  {
  }

  lemma ParentSlugIsSlug(item: seq<Field>)
    ensures IsSlug(ParentSlug(item))
  {
  }

  lemma SplitPathSegments(area: string, parent: string, id: string)
    requires IsSlug(area) && IsSlug(parent) && NoCharIn(id, IsSlash)
    ensures Split(Join("/", PathSegments(area, parent, id)), IsSlash) == PathSegments(area, parent, id)
  {
    SlugHasNoSlash(area);
    SlugHasNoSlash(parent);
    var parts := PathSegments(area, parent, id);
    assert NoCharIn("to-rent", IsSlash);
    forall k | 0 <= k < |parts| ensures NoCharIn(parts[k], IsSlash) {
    }
    SplitJoin(parts, '/', IsSlash);
  }

  /** A built path splits at `/` into "", "to-rent", the area slug, the
      parent slug when non-empty, and the location id, as long as the id
      itself holds no `/`. */
  lemma ListingPathSegments(payload: seq<Field>)
    requires BuildListingPath(payload).Ok?
    ensures
      var item := FirstAutoCompleteItem(payload).value.fields;
      var area := AreaSlug(item).value;
      var parent := ParentSlug(item);
      var id := PyStr(Get(item, "id"));
      && IsSlug(area) && IsSlug(parent)
      && (NoCharIn(id, IsSlash) ==>
            Split(BuildListingPath(payload).value, IsSlash) ==
              ["", "to-rent", area] + (if parent == "" then [] else [parent]) + [id])
  {
    var item := FirstAutoCompleteItem(payload).value.fields;
    var area := AreaSlug(item).value;
    var parent := ParentSlug(item);
    var id := PyStr(Get(item, "id"));
    AreaSlugIsSlug(item);
    ParentSlugIsSlug(item);
    assert BuildListingPath(payload).value == Join("/", PathSegments(area, parent, id));
    if NoCharIn(id, IsSlash) {
      SplitPathSegments(area, parent, id);
    }
  }

  // ---------------------------------------------------------------------
  // Query helpers for the advanced search

  /** `_normalize_auto_complete_items(payload)`: the object entries of a
      list-valued `autoCompleteItems`; anything else, a string included,
      gives no entries. */
  function NormalizeAutoCompleteItems(payload: seq<Field>): (r: seq<seq<Field>>)
    ensures !Get(payload, "autoCompleteItems").JList? ==> r == []
    ensures Get(payload, "autoCompleteItems").JList? ==>
      forall f :: f in r <==> JObj(f) in Get(payload, "autoCompleteItems").items
  {
    var items := Get(payload, "autoCompleteItems");
    if !items.JList? then [] else ObjectEntries(items.items)
  }

  function ObjectEntries(items: seq<JValue>): (r: seq<seq<Field>>)
    ensures |r| <= |items|
    ensures forall f :: f in r <==> JObj(f) in items
  {
    if |items| == 0 then []
    else
      assert forall v :: v in items <==> v == items[0] || v in items[1..];
      (if items[0].JObj? then [items[0].fields] else []) + ObjectEntries(items[1..])
  }

  /** A single item contributes its fields when it is an object. */
  lemma ObjectEntriesSingle(v: JValue)
    ensures ObjectEntries([v]) == if v.JObj? then [v.fields] else []
  {
    assert [v][1..] == [];
  }

  /** The entries of `a + b` are those of `a` followed by those of `b`. */
  lemma {:induction false} ObjectEntriesConcat(a: seq<JValue>, b: seq<JValue>)
    ensures ObjectEntries(a + b) == ObjectEntries(a) + ObjectEntries(b)
    decreases |a|
  {
    if |a| == 0 {
      assert a + b == b;
    } else {
      assert (a + b)[0] == a[0];
      assert (a + b)[1..] == a[1..] + b;
      ObjectEntriesConcat(a[1..], b);
      var head := if a[0].JObj? then [a[0].fields] else [];
      ConcatAssoc(head, ObjectEntries(a[1..]), ObjectEntries(b));
    }
  }

  /** When every item is an object, there is one entry per item, in item
      order, so the entry count is the item count. */
  lemma {:induction false} ObjectEntriesOfObjects(items: seq<JValue>)
    requires forall i :: 0 <= i < |items| ==> items[i].JObj?
    ensures |ObjectEntries(items)| == |items|
    ensures forall i :: 0 <= i < |items| ==> ObjectEntries(items)[i] == items[i].fields
  {
    if |items| > 0 {
      ObjectEntriesOfObjects(items[1..]);
      assert ObjectEntries(items) == [items[0].fields] + ObjectEntries(items[1..]);
    }
  }

  /** The location id one entry contributes: an `int` or `str` id, not a
      `bool`, rendered and stripped, when that is not blank. */
  function LocationIdOf(item: seq<Field>): (r: Option<string>)
    ensures r.Some? ==> r.value != ""
    ensures r.Some? ==> Get(item, "id").JInt? || Get(item, "id").JStr?
    ensures Get(item, "id").JStr? && Strip(Get(item, "id").s) != "" ==> r == Some(Strip(Get(item, "id").s))
    ensures Get(item, "id").JStr? && Strip(Get(item, "id").s) == "" ==> r.None?
    // An integer id is written out in decimal.
    ensures Get(item, "id").JInt? ==> r == Some(IntToString(Get(item, "id").i))
  {
    var id := Get(item, "id");
    if id.JBool? then None
    else if id.JInt? || id.JStr? then
      var value := Strip(PyStr(id));
      assert id.JInt? ==> value == IntToString(id.i) by {
        if id.JInt? {
          IntToStringIsStripped(id.i);
        }
      }
      if value != "" then Some(value) else None
    else None
  }

  /** `_extract_location_ids(items)`. */
  function ExtractLocationIds(items: seq<seq<Field>>): (r: seq<string>)
    ensures |r| <= |items|
    ensures forall v :: v in r <==> exists item :: item in items && LocationIdOf(item) == Some(v)
  {
    if |items| == 0 then []
    else
      assert forall it :: it in items <==> it == items[0] || it in items[1..];
      (match LocationIdOf(items[0]) case Some(v) => [v] case None => []) + ExtractLocationIds(items[1..])
  }

  /** A single entry contributes its id, if it has one. */
  lemma ExtractLocationIdsSingle(item: seq<Field>)
    ensures ExtractLocationIds([item]) == match LocationIdOf(item) case Some(v) => [v] case None => []
  {
    assert [item][1..] == [];
  }

  /** Ids keep entry order and repeats: the ids of `a + b` are those of `a`
      followed by those of `b`. */
  lemma {:induction false} ExtractLocationIdsConcat(a: seq<seq<Field>>, b: seq<seq<Field>>)
    ensures ExtractLocationIds(a + b) == ExtractLocationIds(a) + ExtractLocationIds(b)
    decreases |a|
  {
    if |a| == 0 {
      assert a + b == b;
    } else {
      assert (a + b)[0] == a[0];
      assert (a + b)[1..] == a[1..] + b;
      ExtractLocationIdsConcat(a[1..], b);
      var head := match LocationIdOf(a[0]) case Some(v) => [v] case None => [];
      ConcatAssoc(head, ExtractLocationIds(a[1..]), ExtractLocationIds(b));
    }
  }

  /** `_coerce_numeric_query_value(data)` for the `int` and `str` cases: an
      object is replaced by its `value`; `None`, booleans, non-positive
      integers, blank strings and `"0"` give no value. */
  function CoerceNumericQueryValue(data: JValue): (r: Option<string>)
    ensures r.Some? ==> r.value != "" && r.value != "0"
    ensures var d := if data.JObj? then Get(data.fields, "value") else data;
      && (d.JNull? || d.JBool? || d.JList? || d.JObj? ==> r.None?)
      && (d.JInt? ==> (r.Some? <==> d.i > 0))
      && (d.JInt? && d.i > 0 ==> ParseInt(r.value) == Some(d.i))
      && (d.JStr? ==> (r.Some? <==> Strip(d.s) != "" && Strip(d.s) != "0"))
      && (d.JStr? && r.Some? ==> r.value == Strip(d.s))
  {
    var d := if data.JObj? then Get(data.fields, "value") else data;
    match d
    case JInt(i) =>
      if i <= 0 then None
      else
        ParseIntOfIntToString(i);
        Some(IntToString(i))
    case JStr(text) =>
      var stripped := Strip(text);
      if stripped == "" || stripped == "0" then None else Some(stripped)
    case _ => None
  }

  // ---------------------------------------------------------------------
  // Page URLs

  /** `",".join(categories)` as the `PropertyCategory` pair, present only
      when there are categories. */
  function CategoryPairs(payload: seq<Field>): (r: seq<(string, string)>)
    ensures r == [] <==> BuildPropertyCategories(payload) == []
    ensures r != [] ==> r == [("PropertyCategory", Join(",", BuildPropertyCategories(payload)))]
  {
    var categories := BuildPropertyCategories(payload);
    if categories != [] then [("PropertyCategory", Join(",", categories))] else []
  }

  /** `?query` when the query is non-empty, else nothing. */
  function QuerySuffix(pairs: seq<(string, string)>): (r: string)
    ensures pairs == [] <==> r == ""
    ensures pairs != [] ==> r[0] == '?'
  {
    var query := UrlEncode.Encode(pairs);
    if query != "" then "?" + query else ""
  }

  /** `_build_standard_listing_page_url(payload, page)`. */
  function StandardPageUrl(payload: seq<Field>, page: int): (r: Result<string, string>)
    ensures r.Err? <==> BuildListingPath(payload).Err?
  {
    match BuildListingPath(payload)
    case Err(e) => Err(e)
    case Ok(path) =>
      Ok(BaseUrl + TrimEnd(path, IsSlash) + "/p" + IntToString(page) + QuerySuffix(CategoryPairs(payload)))
  }

  /** A standard page URL is the site, the results path without trailing
      slashes, `/p{page}`, and a `?` query exactly when there are
      categories to filter on. */
  lemma StandardPageUrlShape(payload: seq<Field>, page: int, path: string)
    requires BuildListingPath(payload) == Ok(path)
    ensures StandardPageUrl(payload, page).Ok?
    ensures
      var url := StandardPageUrl(payload, page).value;
      var prefix := BaseUrl + TrimEnd(path, IsSlash) + "/p" + IntToString(page);
      && |prefix| <= |url| && url[..|prefix|] == prefix
      && (url == prefix <==> BuildPropertyCategories(payload) == [])
      && (url != prefix ==> url[|prefix|] == '?')
  {
    var prefix := BaseUrl + TrimEnd(path, IsSlash) + "/p" + IntToString(page);
    var suffix := QuerySuffix(CategoryPairs(payload));
    assert StandardPageUrl(payload, page) == Ok(prefix + suffix);
    ConcatPrefix(prefix, suffix);
  }

  lemma ConcatPrefix(prefix: string, suffix: string)
    ensures (prefix + suffix)[..|prefix|] == prefix
    ensures prefix + suffix == prefix <==> suffix == ""
    ensures suffix != "" ==> (prefix + suffix)[|prefix|] == suffix[0]
  {
    if prefix + suffix == prefix {
      assert |suffix| == 0;
    }
  }

  /** The optional `pf`/`pt` pair for one price key. */
  function PricePair(payload: seq<Field>, sourceKey: string, targetKey: string): (r: seq<(string, string)>)
    ensures r == [] <==> CoerceNumericQueryValue(Get(payload, sourceKey)).None?
    ensures r != [] ==> r == [(targetKey, CoerceNumericQueryValue(Get(payload, sourceKey)).value)]
  {
    match CoerceNumericQueryValue(Get(payload, sourceKey))
    case Some(v) => [(targetKey, v)]
    case None => []
  }

  /** The `sp` pairs: the comma-joined ids, then `pf` and `pt` when present. */
  function SpPairs(payload: seq<Field>, ids: seq<string>): (r: seq<(string, string)>)
    ensures 1 <= |r| <= 3
    ensures r[0] == ("s", Join(",", ids))
    ensures r[1..] == PricePair(payload, "priceFrom", "pf") + PricePair(payload, "priceTo", "pt")
  {
    HeadAndTail(("s", Join(",", ids)), PricePair(payload, "priceFrom", "pf"), PricePair(payload, "priceTo", "pt"));
    [("s", Join(",", ids))] + PricePair(payload, "priceFrom", "pf") + PricePair(payload, "priceTo", "pt")
  }

  /** `"&".join(f"{key}={value}" ...)`, unescaped. */
  function SpValue(pairs: seq<(string, string)>): string {
    Join("&", seq(|pairs|, i requires 0 <= i < |pairs| => pairs[i].0 + "=" + pairs[i].1))
  }

  /** The query pairs of the advanced search: `sp`, the categories, and
      `Page` only after the first page. */
  function AdvancedQuery(payload: seq<Field>, page: int, ids: seq<string>): (r: seq<(string, string)>)
    ensures |r| >= 1 && r[0] == ("sp", SpValue(SpPairs(payload, ids)))
    ensures r[1..] == CategoryPairs(payload) + (if page > 1 then [("Page", IntToString(page))] else [])
  {
    var pageParam := if page > 1 then [("Page", IntToString(page))] else [];
    HeadAndTail(("sp", SpValue(SpPairs(payload, ids))), CategoryPairs(payload), pageParam);
    [("sp", SpValue(SpPairs(payload, ids)))] + CategoryPairs(payload) + pageParam
  }

  /** The last pair names the page exactly after the first page. */
  lemma AdvancedQueryPage(payload: seq<Field>, page: int, ids: seq<string>)
    ensures
      var r := AdvancedQuery(payload, page, ids);
      page > 1 <==> r[|r| - 1] == ("Page", IntToString(page))
  {
    var cats := CategoryPairs(payload);
    assert forall i :: 0 <= i < |cats| ==> cats[i].0 == "PropertyCategory";
    LastPairNamesPage(("sp", SpValue(SpPairs(payload, ids))), cats, page, AdvancedQuery(payload, page, ids));
  }

  /** A query that lists a first pair and other pairs not named "Page",
      then the page pair only after page 1, ends in the page pair exactly
      after page 1. */
  lemma LastPairNamesPage(first: (string, string), rest: seq<(string, string)>, page: int, r: seq<(string, string)>)
    requires first.0 != "Page"
    requires forall i :: 0 <= i < |rest| ==> rest[i].0 != "Page"
    requires |r| >= 1 && r[0] == first
    requires r[1..] == rest + (if page > 1 then [("Page", IntToString(page))] else [])
    ensures page > 1 <==> r[|r| - 1] == ("Page", IntToString(page))
  {
    if page <= 1 && |rest| > 0 {
      assert r[|r| - 1] == r[1..][|rest| - 1];
    }
  }

  /** `_build_advanced_search_url(payload, page, items)`. */
  function AdvancedSearchUrl(payload: seq<Field>, page: int, items: seq<seq<Field>>): (r: Result<string, string>)
    ensures r.Err? <==> ExtractLocationIds(items) == []
    ensures r.Ok? ==>
      r.value == BaseUrl + AdvancedSearchPath + "?" + UrlEncode.Encode(AdvancedQuery(payload, page, ExtractLocationIds(items)))
  {
    var ids := ExtractLocationIds(items);
    if ids == [] then Err("Advanced search payload missing location identifiers")
    else
      var query := AdvancedQuery(payload, page, ids);
      var encoded := UrlEncode.Encode(query);
      assert QuerySuffix(query) == "?" + encoded;
      ConcatAssoc(BaseUrl + AdvancedSearchPath, "?", encoded);
      Ok(BaseUrl + AdvancedSearchPath + QuerySuffix(query))
  }

  /** `_build_listing_page_url(payload, page)`: the advanced search for more
      than one object entry, the single-location path otherwise. */
  function ListingPageUrl(payload: seq<Field>, page: int): (r: Result<string, string>)
    ensures |NormalizeAutoCompleteItems(payload)| > 1 ==>
      r == AdvancedSearchUrl(payload, page, NormalizeAutoCompleteItems(payload))
    ensures |NormalizeAutoCompleteItems(payload)| <= 1 ==> r == StandardPageUrl(payload, page)
  {
    var items := NormalizeAutoCompleteItems(payload);
    if |items| > 1 then AdvancedSearchUrl(payload, page, items) else StandardPageUrl(payload, page)
  }

  /** Whether a page URL can be built does not depend on the page. */
  lemma PageUrlFailureIsPageIndependent(payload: seq<Field>, p: int, q: int)
    ensures ListingPageUrl(payload, p).Err? <==> ListingPageUrl(payload, q).Err?
  {
  }

  // ---------------------------------------------------------------------
  // Listing extraction and the paginated fetch

  /** One match of the listing-link pattern: the listing number and the
      whole `/to-rent/.../{number}` path it ends. */
  datatype Anchor = Anchor(number: string, path: string)

  /** The answer to one page request: a failure (transport error or error
      status), or the page's listing-number markers and its link matches in
      document order. */
  datatype PageResponse = RequestFailed | Html(numbers: set<string>, anchors: seq<Anchor>)

  /** The number filter of `_extract_listing_urls`: an empty set accepts
      every listing. */
  predicate Accepts(valid: set<string>, number: string) {
    valid == {} || number in valid
  }

  /** The absolute URLs of the accepted anchors, in document order, with
      repetitions. */
  function Selected(anchors: seq<Anchor>, valid: set<string>): (r: seq<string>)
    ensures |r| <= |anchors|
    ensures forall u :: u in r <==>
      exists a :: a in anchors && Accepts(valid, a.number) && u == BaseUrl + a.path
  {
    if |anchors| == 0 then []
    else
      assert forall a :: a in anchors <==> a == anchors[0] || a in anchors[1..];
      var a := anchors[0];
      (if Accepts(valid, a.number) then [BaseUrl + a.path] else []) + Selected(anchors[1..], valid)
  }

  /** `_extract_listing_urls(html, valid_numbers)`. */
  function ExtractListingUrls(anchors: seq<Anchor>, valid: set<string>): (r: seq<string>)
    ensures NoDups(r)
    ensures forall u :: u in r <==>
      exists a :: a in anchors && Accepts(valid, a.number) && u == BaseUrl + a.path
    ensures r == FirstOccurrences(Selected(anchors, valid), [])
  {
    AppendNewIsFirstOccurrences([], Selected(anchors, valid));
    Dedup(Selected(anchors, valid))
  }

  /** `max(1, ceil(count / PAGE_SIZE)) if count else 1`. */
  function TotalPages(count: nat): (n: nat)
    ensures n >= 1
    ensures count > 0 ==> (n - 1) * PageSize < count <= n * PageSize
    ensures count <= PageSize ==> n == 1
  {
    if count == 0 then 1 else (count + PageSize - 1) / PageSize
  }

  lemma PageCountExamples()
    ensures TotalPages(0) == 1 && TotalPages(2) == 1 && TotalPages(20) == 1
    ensures TotalPages(21) == 2 && TotalPages(45) == 3
  {
  }

  function NumbersOf(p: PageResponse): set<string> {
    if p.Html? then p.numbers else {}
  }

  function AnchorsOf(p: PageResponse): seq<Anchor> {
    if p.Html? then p.anchors else []
  }

  /** Every listing number marked on the given pages. */
  function SeenNumbers(pages: seq<PageResponse>): set<string> {
    if |pages| == 0 then {}
    else SeenNumbers(pages[..|pages| - 1]) + NumbersOf(pages[|pages| - 1])
  }

  /** The seen numbers are exactly those marked on some page. */
  lemma {:induction false} SeenNumbersMembers(pages: seq<PageResponse>)
    ensures forall n :: n in SeenNumbers(pages) <==> exists i :: 0 <= i < |pages| && n in NumbersOf(pages[i])
  {
    if |pages| > 0 {
      var init := pages[..|pages| - 1];
      SeenNumbersMembers(init);
      assert forall i :: 0 <= i < |init| ==> init[i] == pages[i];
    }
  }

  /** The filter page `i` is read with: its own markers, or when it has none
      the markers of the pages before it. */
  function PageFilter(pages: seq<PageResponse>, i: nat): set<string>
    requires i < |pages|
  {
    if NumbersOf(pages[i]) != {} then NumbersOf(pages[i]) else SeenNumbers(pages[..i])
  }

  /** Every URL the pages contribute, page by page: the reference for what
      the fetch collects. */
  function Harvest(pages: seq<PageResponse>): seq<string> {
    if |pages| == 0 then []
    else
      var n := |pages| - 1;
      Harvest(pages[..n]) + Selected(AnchorsOf(pages[n]), PageFilter(pages, n))
  }

  /** A page's filter depends only on that page and the ones before it. */
  lemma PageFilterOfPrefix(pages: seq<PageResponse>, k: nat, i: nat)
    requires i < k <= |pages|
    ensures pages[..k][i] == pages[i]
    ensures PageFilter(pages[..k], i) == PageFilter(pages, i)
  {
    assert pages[..k][..i] == pages[..i];
  }

  /** A URL is harvested exactly when some page has a link its filter
      accepts. */
  lemma {:induction false} HarvestMembers(pages: seq<PageResponse>)
    ensures forall u :: u in Harvest(pages) <==>
      exists i, a :: 0 <= i < |pages| && a in AnchorsOf(pages[i]) &&
        Accepts(PageFilter(pages, i), a.number) && u == BaseUrl + a.path
  {
    if |pages| > 0 {
      var n := |pages| - 1;
      var init := pages[..n];
      HarvestMembers(init);
      forall i | 0 <= i < n
        ensures init[i] == pages[i] && PageFilter(init, i) == PageFilter(pages, i)
      {
        PageFilterOfPrefix(pages, n, i);
      }
    }
  }

  /** The responses to the given URLs, in request order. */
  function Responses(urls: seq<string>, respond: string -> PageResponse): (r: seq<PageResponse>)
    ensures |r| == |urls|
    ensures forall i :: 0 <= i < |urls| ==> r[i] == respond(urls[i])
  {
    seq(|urls|, i requires 0 <= i < |urls| => respond(urls[i]))
  }

  /** The errors `fetch_listing_urls` raises: the `ValueError` for a
      negative count, the `RuntimeError` of a page URL that cannot be
      built, and the `RuntimeError` wrapping a failed page request. */
  datatype FetchError = NegativeCount | BadPayload(message: string) | PageRequestFailed(page: nat)

  /** The URLs requested, in order, and what the call returned or raised. */
  datatype Fetch = Fetch(requested: seq<string>, result: Result<seq<string>, FetchError>)

  /** Every page from 1 to `total` has a URL and answers. */
  predicate AllPagesAnswer(urlOf: int -> Result<string, string>, total: nat, respond: string -> PageResponse) {
    forall p :: 1 <= p <= total ==> urlOf(p).Ok? && respond(urlOf(p).value).Html?
  }

  /** The step of one more answered page: its URLs are appended to the
      de-duplicated harvest of the pages before. */
  lemma HarvestStep(requested: seq<string>, url: string, respond: string -> PageResponse)
    requires respond(url).Html?
    ensures
      var pages := Responses(requested, respond);
      var pages' := Responses(requested + [url], respond);
      var filter := if respond(url).numbers != {} then respond(url).numbers
                    else SeenNumbers(pages) + respond(url).numbers;
      && SeenNumbers(pages') == SeenNumbers(pages) + respond(url).numbers
      && Dedup(Harvest(pages')) ==
           AppendNew(Dedup(Harvest(pages)), ExtractListingUrls(respond(url).anchors, filter))
  {
    var pages := Responses(requested, respond);
    var pages' := Responses(requested + [url], respond);
    assert pages' == pages + [respond(url)];
    assert pages'[..|pages|] == pages;
    var filter := if respond(url).numbers != {} then respond(url).numbers
                  else SeenNumbers(pages) + respond(url).numbers;
    assert PageFilter(pages', |pages|) == filter;
    var sel := Selected(respond(url).anchors, filter);
    assert Harvest(pages') == Harvest(pages) + sel;
    AppendNewConcat([], Harvest(pages), sel);
    AppendNewDedup(Dedup(Harvest(pages)), sel);
  }

  /** `requested[i]` is the URL of page `i + 1`. */
  predicate RequestedInOrder(urlOf: int -> Result<string, string>, requested: seq<string>) {
    forall i :: 0 <= i < |requested| ==> urlOf(i + 1) == Ok(requested[i])
  }

  /** Every requested page answered. */
  predicate AllAnswered(requested: seq<string>, respond: string -> PageResponse) {
    forall i :: 0 <= i < |requested| ==> respond(requested[i]).Html?
  }

  lemma RequestNextPage(urlOf: int -> Result<string, string>, requested: seq<string>, url: string)
    requires RequestedInOrder(urlOf, requested)
    requires urlOf(|requested| + 1) == Ok(url)
    ensures RequestedInOrder(urlOf, requested + [url])
  {
  }

  lemma AnswerNextPage(requested: seq<string>, url: string, respond: string -> PageResponse)
    requires AllAnswered(requested, respond)
    requires respond(url).Html?
    ensures AllAnswered(requested + [url], respond)
  {
  }

  /** When the first page has no URL, no page was requested. */
  lemma NothingRequestedBeforeFailure(urlOf: int -> Result<string, string>, requested: seq<string>)
    requires RequestedInOrder(urlOf, requested) && urlOf(1).Err?
    ensures requested == []
  {
    forall p | 1 <= p <= |requested|
      ensures urlOf(p).Ok?
    {
      assert urlOf(p) == Ok(requested[p - 1]);
    }
  }

  lemma AllRequestedAnswer(urlOf: int -> Result<string, string>, requested: seq<string>, respond: string -> PageResponse)
    requires RequestedInOrder(urlOf, requested) && AllAnswered(requested, respond)
    ensures AllPagesAnswer(urlOf, |requested|, respond)
  {
    forall p | 1 <= p <= |requested|
      ensures urlOf(p).Ok? && respond(urlOf(p).value).Html?
    {
      assert urlOf(p) == Ok(requested[p - 1]);
    }
  }

  /** What the page loop has gathered so far: the URLs requested, the
      listing URLs collected and the listing numbers seen. */
  datatype Progress = Progress(requested: seq<string>, urls: seq<string>, seen: set<string>)

  /** The loop's invariant: the pages so far were requested in order and
      answered, and the URLs and numbers gathered are what they yield. */
  predicate Consistent(urlOf: int -> Result<string, string>, respond: string -> PageResponse, g: Progress) {
    && RequestedInOrder(urlOf, g.requested)
    && AllAnswered(g.requested, respond)
    && g.seen == SeenNumbers(Responses(g.requested, respond))
    && g.urls == Dedup(Harvest(Responses(g.requested, respond)))
  }

  /** One pass through the body of the page loop: the next page's URL is
      built, requested and harvested. A failure is reported with the
      progress up to and including the failed request. */
  method FetchPage(urlOf: int -> Result<string, string>, respond: string -> PageResponse, g: Progress)
    returns (next: Progress, failure: Option<FetchError>)
    requires Consistent(urlOf, respond, g)
    ensures RequestedInOrder(urlOf, next.requested)
    ensures failure.None? <==>
      urlOf(|g.requested| + 1).Ok? && respond(urlOf(|g.requested| + 1).value).Html?
    ensures failure.None? ==> Consistent(urlOf, respond, next) && |next.requested| == |g.requested| + 1
    ensures failure.Some? ==> failure.value.BadPayload? || failure.value == PageRequestFailed(|g.requested| + 1)
    ensures failure.Some? && failure.value.BadPayload? ==>
      next == g && urlOf(|g.requested| + 1) == Err(failure.value.message)
    ensures failure.Some? && failure.value.PageRequestFailed? ==>
      && urlOf(|g.requested| + 1).Ok?
      && next.requested == g.requested + [urlOf(|g.requested| + 1).value]
      && respond(urlOf(|g.requested| + 1).value).RequestFailed?
  {
    var page := |g.requested| + 1;
    var pageUrl := urlOf(page);
    if pageUrl.Err? {
      return g, Some(BadPayload(pageUrl.error));
    }
    RequestNextPage(urlOf, g.requested, pageUrl.value);
    var response := respond(pageUrl.value);
    if response.RequestFailed? {
      return g.(requested := g.requested + [pageUrl.value]), Some(PageRequestFailed(page));
    }
    AnswerNextPage(g.requested, pageUrl.value, respond);
    HarvestStep(g.requested, pageUrl.value, respond);
    var seen := g.seen + response.numbers;
    var pageUrls := ExtractListingUrls(response.anchors, if response.numbers != {} then response.numbers else seen);
    return Progress(g.requested + [pageUrl.value], AppendNew(g.urls, pageUrls), seen), None;
  }

  /** What the page loop over pages `1..total` promises about its outcome
      `f`: pages are requested in order; the call succeeds exactly when
      every page has a URL and answers, and then returns the de-duplicated
      harvest of all of them; a URL that cannot be built stops the loop
      before its request; a failed request is the last one made, after
      pages that all answered. */
  predicate FetchSound(urlOf: int -> Result<string, string>, total: nat, respond: string -> PageResponse, f: Fetch) {
    && |f.requested| <= total
    && RequestedInOrder(urlOf, f.requested)
    && (f.result.Ok? <==> AllPagesAnswer(urlOf, total, respond))
    && (f.result.Ok? ==>
          && |f.requested| == total
          && f.result.value == Dedup(Harvest(Responses(f.requested, respond))))
    && (f.result.Err? ==> !f.result.error.NegativeCount?)
    && (f.result.Err? && f.result.error.BadPayload? ==>
          urlOf(|f.requested| + 1) == Err(f.result.error.message))
    && (f.result.Err? && f.result.error.PageRequestFailed? ==>
          var p := f.result.error.page;
          && 1 <= p == |f.requested|
          && respond(f.requested[p - 1]).RequestFailed?
          && forall i :: 0 <= i < p - 1 ==> respond(f.requested[i]).Html?)
  }

  /** The loop ran to the end: every page answered. */
  lemma CompletedFetchSound(urlOf: int -> Result<string, string>, total: nat, respond: string -> PageResponse, g: Progress)
    requires |g.requested| == total && Consistent(urlOf, respond, g)
    ensures FetchSound(urlOf, total, respond, Fetch(g.requested, Ok(g.urls)))
  {
    AllRequestedAnswer(urlOf, g.requested, respond);
  }

  /** The loop stopped at page `|g.requested| + 1`, as `FetchPage` reports. */
  lemma FailedFetchSound(urlOf: int -> Result<string, string>, total: nat, respond: string -> PageResponse,
                         g: Progress, next: Progress, failure: FetchError)
    requires |g.requested| < total && Consistent(urlOf, respond, g)
    requires RequestedInOrder(urlOf, next.requested)
    requires !(urlOf(|g.requested| + 1).Ok? && respond(urlOf(|g.requested| + 1).value).Html?)
    requires failure.BadPayload? || failure == PageRequestFailed(|g.requested| + 1)
    requires failure.BadPayload? ==> next == g && urlOf(|g.requested| + 1) == Err(failure.message)
    requires failure.PageRequestFailed? ==>
      && urlOf(|g.requested| + 1).Ok?
      && next.requested == g.requested + [urlOf(|g.requested| + 1).value]
      && respond(urlOf(|g.requested| + 1).value).RequestFailed?
    ensures FetchSound(urlOf, total, respond, Fetch(next.requested, Err(failure)))
  {
    var p := |g.requested| + 1;
    assert !AllPagesAnswer(urlOf, total, respond) by {
      assert !(urlOf(p).Ok? && respond(urlOf(p).value).Html?);
    }
    if failure.PageRequestFailed? {
      assert forall i :: 0 <= i < p - 1 ==> next.requested[i] == g.requested[i];
    }
  }

  /** The page loop of `fetch_listing_urls` over pages `1..total`, with the
      page URLs given by `urlOf`. */
  method FetchPages(urlOf: int -> Result<string, string>, total: nat, respond: string -> PageResponse)
    returns (f: Fetch)
    ensures FetchSound(urlOf, total, respond, f)
  {
    var g := Progress([], [], {});
    while |g.requested| < total
      invariant |g.requested| <= total
      invariant Consistent(urlOf, respond, g)
    {
      var next, failure := FetchPage(urlOf, respond, g);
      if failure.Some? {
        FailedFetchSound(urlOf, total, respond, g, next, failure.value);
        return Fetch(next.requested, Err(failure.value));
      }
      g := next;
    }
    CompletedFetchSound(urlOf, total, respond, g);
    return Fetch(g.requested, Ok(g.urls));
  }

  /** The page URL builder for one payload, page by page. */
  function PageUrls(payload: seq<Field>): (urlOf: int -> Result<string, string>)
    ensures forall page :: urlOf(page) == ListingPageUrl(payload, page)
  {
    page => ListingPageUrl(payload, page)
  }

  /** `fetch_listing_urls(payload, count=count, session=...)`, with the
      session's answers given by `respond`. */
  method FetchListingUrls(payload: seq<Field>, count: int, respond: string -> PageResponse)
    returns (f: Fetch)
    ensures count < 0 ==> f == Fetch([], Err(NegativeCount))
    ensures f.result == Err(NegativeCount) ==> count < 0
    ensures RequestedInOrder(PageUrls(payload), f.requested)
    ensures count >= 0 ==> |f.requested| <= TotalPages(count)
    ensures count >= 0 ==>
      (f.result.Ok? <==> AllPagesAnswer(PageUrls(payload), TotalPages(count), respond))
    ensures f.result.Ok? ==>
      && |f.requested| == TotalPages(count)
      && f.result.value == Dedup(Harvest(Responses(f.requested, respond)))
      && NoDups(f.result.value)
    ensures f.result.Err? && f.result.error.BadPayload? ==>
      f.requested == [] && ListingPageUrl(payload, 1) == Err(f.result.error.message)
    ensures f.result.Err? && f.result.error.PageRequestFailed? ==>
      var p := f.result.error.page;
      && 1 <= p == |f.requested|
      && respond(f.requested[p - 1]).RequestFailed?
      && forall i :: 0 <= i < p - 1 ==> respond(f.requested[i]).Html?
  {
    if count < 0 {
      return Fetch([], Err(NegativeCount));
    }
    var urlOf := PageUrls(payload);
    f := FetchPages(urlOf, TotalPages(count), respond);
    if f.result.Err? && f.result.error.BadPayload? {
      var k := |f.requested|;
      assert urlOf(k + 1).Err?;
      PageUrlFailureIsPageIndependent(payload, k + 1, 1);
      NothingRequestedBeforeFailure(urlOf, f.requested);
    }
  }
}
