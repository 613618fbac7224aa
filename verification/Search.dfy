/** Hotel search: the filters become a bool query, and the ranked hits are served page by page. */
module Search {
  import opened Wrappers
  import opened HotelDocument
  import opened HotelIndex

  const MAX_PAGE_SIZE := 50

  datatype Filters = Filters(name: Option<string>, location: Option<string>, minRating: Option<real>,
                             maxRating: Option<real>, roomType: Option<string>, minPrice: Option<real>,
                             maxPrice: Option<real>, page: Option<int>, limit: Option<int>)

  datatype Field = Location | Rating | MinPrice | RoomTypeNames

  datatype Clause =
    | MatchAll
    | MultiMatch(query: string)
    | Term(field: Field, value: string)
    | Range(field: Field, gte: Option<real>, lte: Option<real>)

  datatype Query = Query(must: seq<Clause>, filter: seq<Clause>)

  /** How well a text matches the name and address of a hotel; None if it does not match. */
  type Scoring = (string, HotelDoc) -> Option<real>

  // ---------------------------------------------------------------- what a query selects

  function RoomTypeName(t: RoomType): string {
    match t
    case SINGLE => "SINGLE"
    case DOUBLE => "DOUBLE"
    case FAMILY => "FAMILY"
    case DELUXE => "DELUXE"
    case SUITE => "SUITE"
  }

  /** The keywords a document has in a field. */
  function Keywords(doc: HotelDoc, field: Field): seq<string> {
    match field
    case Location => [doc.location]
    case RoomTypeNames => seq(|doc.roomTypes|, i requires 0 <= i < |doc.roomTypes| => RoomTypeName(doc.roomTypes[i]))
    case _ => []
  }

  /** The number a document has in a field. */
  function Number(doc: HotelDoc, field: Field): Option<real> {
    match field
    case Rating => Some(doc.rating as real / 100.0)
    case MinPrice => Some(doc.minPrice as real)
    case _ => None
  }

  predicate Within(x: real, lower: Option<real>, upper: Option<real>) {
    (lower.Some? ==> lower.value <= x) && (upper.Some? ==> x <= upper.value)
  }

  predicate Matches(c: Clause, doc: HotelDoc, scoring: Scoring) {
    match c
    case MatchAll => true
    case MultiMatch(text) => scoring(text, doc).Some?
    case Term(field, value) => value in Keywords(doc, field)
    case Range(field, gte, lte) => Number(doc, field).Some? && Within(Number(doc, field).value, gte, lte)
  }

  predicate MatchesAll(clauses: seq<Clause>, doc: HotelDoc, scoring: Scoring) {
    forall i :: 0 <= i < |clauses| ==> Matches(clauses[i], doc, scoring)
  }

  predicate Selects(query: Query, doc: HotelDoc, scoring: Scoring) {
    MatchesAll(query.must, doc, scoring) && MatchesAll(query.filter, doc, scoring)
  }

  /** Only the `must` clauses score. */
  function Score(must: seq<Clause>, doc: HotelDoc, scoring: Scoring): real {
    if must == [] then 0.0
    else Score(must[1..], doc, scoring) + if must[0].MultiMatch? then scoring(must[0].query, doc).GetOr(0.0) else 1.0
  }

  // ---------------------------------------------------------------- from filters to a query

  /** An absent or empty text filters nothing. */
  predicate Given(text: Option<string>) {
    text.Some? && text.value != ""
  }

  function RangeOn(field: Field, lower: Option<real>, upper: Option<real>): seq<Clause> {
    if lower.None? && upper.None? then [] else [Range(field, lower, upper)]
  }

  function TermOn(field: Field, text: Option<string>): seq<Clause> {
    if Given(text) then [Term(field, text.value)] else []
  }

  function Compiled(f: Filters): Query {
    Query(if Given(f.name) then [MultiMatch(f.name.value)] else [MatchAll],
          TermOn(Location, f.location) + RangeOn(Rating, f.minRating, f.maxRating)
          + RangeOn(MinPrice, f.minPrice, f.maxPrice) + TermOn(RoomTypeNames, f.roomType))
  }

  method BuildQuery(f: Filters) returns (query: Query)
    ensures query == Compiled(f)
  {
    var must := if Given(f.name) then [MultiMatch(f.name.value)] else [MatchAll];
    var filter: seq<Clause> := [];
    if Given(f.location) {
      filter := filter + [Term(Location, f.location.value)];
    }
    assert filter == TermOn(Location, f.location);
    ghost var before := filter;
    if f.minRating.Some? || f.maxRating.Some? {
      var gte, lte := None, None;
      if f.minRating.Some? {
        gte := f.minRating;
      }
      if f.maxRating.Some? {
        lte := f.maxRating;
      }
      filter := filter + [Range(Rating, gte, lte)];
    }
    assert filter == before + RangeOn(Rating, f.minRating, f.maxRating);
    before := filter;
    if f.minPrice.Some? || f.maxPrice.Some? {
      var gte, lte := None, None;
      if f.minPrice.Some? {
        gte := f.minPrice;
      }
      if f.maxPrice.Some? {
        lte := f.maxPrice;
      }
      filter := filter + [Range(MinPrice, gte, lte)];
    }
    assert filter == before + RangeOn(MinPrice, f.minPrice, f.maxPrice);
    before := filter;
    if Given(f.roomType) {
      filter := filter + [Term(RoomTypeNames, f.roomType.value)];
    }
    assert filter == before + TermOn(RoomTypeNames, f.roomType);
    return Query(must, filter);
  }

  /** The name is that of the room type. */
  predicate Names(name: string, t: RoomType) {
    || (t == SINGLE && name == "SINGLE") || (t == DOUBLE && name == "DOUBLE") || (t == FAMILY && name == "FAMILY")
    || (t == DELUXE && name == "DELUXE") || (t == SUITE && name == "SUITE")
  }

  lemma OneNameEach(name: string, t: RoomType)
    ensures RoomTypeName(t) == name <==> Names(name, t)
  {
  }

  /** What the caller asked for, said directly; an empty text asks for nothing. */
  predicate Wanted(f: Filters, doc: HotelDoc, scoring: Scoring) {
    && (f.name.Some? && f.name.value != "" ==> scoring(f.name.value, doc).Some?)
    && (f.location.Some? && f.location.value != "" ==> doc.location == f.location.value)
    && (f.minRating.Some? ==> f.minRating.value <= doc.rating as real / 100.0)
    && (f.maxRating.Some? ==> doc.rating as real / 100.0 <= f.maxRating.value)
    && (f.minPrice.Some? ==> f.minPrice.value <= doc.minPrice as real)
    && (f.maxPrice.Some? ==> doc.minPrice as real <= f.maxPrice.value)
    && (f.roomType.Some? && f.roomType.value != "" ==> exists t :: t in doc.roomTypes && Names(f.roomType.value, t))
  }

  lemma MatchesBoth(a: seq<Clause>, b: seq<Clause>, doc: HotelDoc, scoring: Scoring)
    ensures MatchesAll(a + b, doc, scoring) <==> MatchesAll(a, doc, scoring) && MatchesAll(b, doc, scoring)
  {
    if MatchesAll(a + b, doc, scoring) {
      forall i | 0 <= i < |a|
        ensures Matches(a[i], doc, scoring)
      {
        assert (a + b)[i] == a[i];
      }
      forall i | 0 <= i < |b|
        ensures Matches(b[i], doc, scoring)
      {
        assert (a + b)[|a| + i] == b[i];
      }
    }
  }

  lemma RoomTypeKeyword(doc: HotelDoc, name: string)
    ensures name in Keywords(doc, RoomTypeNames) <==> exists t :: t in doc.roomTypes && Names(name, t)
  {
    var names := Keywords(doc, RoomTypeNames);
    if name in names {
      var i :| 0 <= i < |names| && names[i] == name;
      OneNameEach(name, doc.roomTypes[i]);
      assert doc.roomTypes[i] in doc.roomTypes && Names(name, doc.roomTypes[i]);
    }
    if t :| t in doc.roomTypes && Names(name, t) {
      OneNameEach(name, t);
      var i :| 0 <= i < |doc.roomTypes| && doc.roomTypes[i] == t;
      assert names[i] == name;
    }
  }

  lemma TermMatches(field: Field, text: Option<string>, doc: HotelDoc, scoring: Scoring)
    ensures MatchesAll(TermOn(field, text), doc, scoring) <==> (Given(text) ==> text.value in Keywords(doc, field))
  {
    if Given(text) {
      assert TermOn(field, text)[0] == Term(field, text.value);
    }
  }

  lemma RangeMatches(field: Field, lower: Option<real>, upper: Option<real>, doc: HotelDoc, scoring: Scoring)
    requires Number(doc, field).Some?
    ensures MatchesAll(RangeOn(field, lower, upper), doc, scoring) <==> Within(Number(doc, field).value, lower, upper)
  {
    if lower.Some? || upper.Some? {
      assert RangeOn(field, lower, upper)[0] == Range(field, lower, upper);
    }
  }

  lemma FilterMatches(f: Filters, doc: HotelDoc, scoring: Scoring)
    ensures MatchesAll(Compiled(f).filter, doc, scoring) <==>
              && MatchesAll(TermOn(Location, f.location), doc, scoring)
              && MatchesAll(RangeOn(Rating, f.minRating, f.maxRating), doc, scoring)
              && MatchesAll(RangeOn(MinPrice, f.minPrice, f.maxPrice), doc, scoring)
              && MatchesAll(TermOn(RoomTypeNames, f.roomType), doc, scoring)
  {
    var location, roomType := TermOn(Location, f.location), TermOn(RoomTypeNames, f.roomType);
    var rating, price := RangeOn(Rating, f.minRating, f.maxRating), RangeOn(MinPrice, f.minPrice, f.maxPrice);
    MatchesBoth(location + rating + price, roomType, doc, scoring);
    MatchesBoth(location + rating, price, doc, scoring);
    MatchesBoth(location, rating, doc, scoring);
  }

  lemma MustMatches(f: Filters, doc: HotelDoc, scoring: Scoring)
    ensures MatchesAll(Compiled(f).must, doc, scoring) <==> (Given(f.name) ==> scoring(f.name.value, doc).Some?)
  {
    if Given(f.name) {
      assert Compiled(f).must[0] == MultiMatch(f.name.value);
    }
  }

  /** The compiled query selects exactly the documents that meet every given filter. */
  lemma CompiledSelectsWanted(f: Filters, doc: HotelDoc, scoring: Scoring)
    ensures Selects(Compiled(f), doc, scoring) <==> Wanted(f, doc, scoring)
  {
    MustMatches(f, doc, scoring);
    FilterMatches(f, doc, scoring);
    TermMatches(Location, f.location, doc, scoring);
    RangeMatches(Rating, f.minRating, f.maxRating, doc, scoring);
    RangeMatches(MinPrice, f.minPrice, f.maxPrice, doc, scoring);
    TermMatches(RoomTypeNames, f.roomType, doc, scoring);
    if Given(f.roomType) {
      RoomTypeKeyword(doc, f.roomType.value);
    }
  }

  // ---------------------------------------------------------------- ranking

  /** `hits` are the documents the query selects, best score first and, at equal scores, best rating first. */
  ghost predicate IsRanking(hits: seq<HotelDoc>, index: map<nat, HotelDoc>, query: Query, scoring: Scoring) {
    && (forall i, j :: 0 <= i < j < |hits| ==> hits[i] != hits[j])
    && (forall doc :: doc in hits <==> (exists h :: h in index && index[h] == doc) && Selects(query, doc, scoring))
    && (forall i, j :: 0 <= i < j < |hits| ==>
          Score(query.must, hits[i], scoring) > Score(query.must, hits[j], scoring)
          || (Score(query.must, hits[i], scoring) == Score(query.must, hits[j], scoring) && hits[i].rating >= hits[j].rating))
  }

  /** Without a name every hit scores the same, so the best rated hotels come first. */
  lemma UnnamedSearchIsByRating(f: Filters, hits: seq<HotelDoc>, index: map<nat, HotelDoc>, scoring: Scoring, i: nat, j: nat)
    requires !Given(f.name) && IsRanking(hits, index, Compiled(f), scoring) && i < j < |hits|
    ensures hits[i].rating >= hits[j].rating
  {
    assert Compiled(f).must == [MatchAll];
    assert forall doc: HotelDoc :: Score([MatchAll], doc, scoring) == 1.0;
  }

  /** With a name the hits come best match first, and best rated first among equal matches. */
  lemma NamedSearchIsByMatch(f: Filters, hits: seq<HotelDoc>, index: map<nat, HotelDoc>, scoring: Scoring, i: nat, j: nat)
    requires f.name.Some? && f.name.value != "" && IsRanking(hits, index, Compiled(f), scoring) && i < j < |hits|
    ensures var a, b := scoring(f.name.value, hits[i]), scoring(f.name.value, hits[j]);
            && a.Some? && b.Some? && a.value >= b.value
            && (a == b ==> hits[i].rating >= hits[j].rating)
  {
    assert hits[i] in hits && hits[j] in hits;
    CompiledSelectsWanted(f, hits[i], scoring);
    CompiledSelectsWanted(f, hits[j], scoring);
    NamedScore(f, hits[i], scoring);
    NamedScore(f, hits[j], scoring);
  }

  lemma NamedScore(f: Filters, doc: HotelDoc, scoring: Scoring)
    requires f.name.Some? && f.name.value != "" && scoring(f.name.value, doc).Some?
    ensures Score(Compiled(f).must, doc, scoring) == scoring(f.name.value, doc).value
  {
    var must := Compiled(f).must;
    assert must == [MultiMatch(f.name.value)] && must[1..] == [];
    assert Score(must[1..], doc, scoring) == 0.0;
  }

  // ---------------------------------------------------------------- pages

  function Min(a: int, b: int): int {
    if a < b then a else b
  }

  /** Page `page`, counting from 1. */
  function PageOf(hits: seq<HotelDoc>, page: nat, size: nat): seq<HotelDoc>
    requires page >= 1
  {
    hits[Min((page - 1) * size, |hits|)..Min((page - 1) * size + size, |hits|)]
  }

  /** The hits at positions (page - 1) * size to page * size - 1, as far as there are any. */
  predicate IsPage(part: seq<HotelDoc>, hits: seq<HotelDoc>, page: int, size: int) {
    var skipped := (page - 1) * size;
    && |part| == (if skipped >= |hits| then 0 else if |hits| - skipped < size then |hits| - skipped else size)
    && forall k :: 0 <= k < |part| ==> 0 <= skipped + k < |hits| && part[k] == hits[skipped + k]
  }

  lemma PageIsPart(hits: seq<HotelDoc>, page: nat, size: nat)
    requires page >= 1
    ensures IsPage(PageOf(hits, page, size), hits, page, size)
  {
    assert (page - 1) * size >= 0;
  }

  /** Pages 1 to `k`, one after the other. */
  function Pages(hits: seq<HotelDoc>, k: nat, size: nat): seq<HotelDoc> {
    if k == 0 then [] else Pages(hits, k - 1, size) + PageOf(hits, k, size)
  }

  lemma NextPage(k: nat, size: nat)
    ensures (k + 1) * size == k * size + size
  {
  }

  /** Pages 1 to `k` are the first k * size hits, in order. */
  lemma {:induction false} PagesConcatenate(hits: seq<HotelDoc>, k: nat, size: nat)
    ensures Pages(hits, k, size) == hits[..Min(k * size, |hits|)]
  {
    if k == 0 {
    } else {
      PagesConcatenate(hits, k - 1, size);
      NextPage(k - 1, size);
    }
  }

  lemma {:induction false} MulStep(a: nat, b: nat, size: nat)
    requires a < b
    ensures a * size + size <= b * size
    decreases b
  {
    NextPage(b - 1, size);
    if a < b - 1 {
      MulStep(a, b - 1, size);
    }
  }

  lemma PageOfPosition(i: nat, p: nat, size: nat)
    requires p >= 1 && size >= 1
    ensures (p - 1) * size <= i < (p - 1) * size + size <==> p == i / size + 1
  {
    var q, r := i / size, i % size;
    assert i == q * size + r && 0 <= r < size;
    if p - 1 < q {
      MulStep(p - 1, q, size);
    } else if p - 1 > q {
      MulStep(q, p - 1, size);
    }
  }

  /** Every hit is on exactly one page. */
  lemma EveryHitOnOnePage(hits: seq<HotelDoc>, i: nat, p: nat, size: nat)
    requires i < |hits| && p >= 1 && size >= 1
    requires forall a, b :: 0 <= a < b < |hits| ==> hits[a] != hits[b]
    ensures hits[i] in PageOf(hits, p, size) <==> p == i / size + 1
  {
    PageOfPosition(i, p, size);
    InSlice(hits, i, Min((p - 1) * size, |hits|), Min((p - 1) * size + size, |hits|));
  }

  lemma InSlice(hits: seq<HotelDoc>, i: nat, lo: nat, hi: nat)
    requires i < |hits| && lo <= hi <= |hits|
    requires forall a, b :: 0 <= a < b < |hits| ==> hits[a] != hits[b]
    ensures hits[i] in hits[lo..hi] <==> lo <= i < hi
  {
    if hits[i] in hits[lo..hi] {
      var j :| 0 <= j < hi - lo && hits[lo..hi][j] == hits[i];
      assert hits[lo + j] == hits[i];
    }
    if lo <= i < hi {
      assert hits[lo..hi][i - lo] == hits[i];
    }
  }

  lemma FromSign(page: int, size: int)
    requires size >= 1
    ensures (page - 1) * size >= 0 <==> page >= 1
  {
    if page < 1 {
      assert (page - 1) * size <= -1 * size;
    }
  }

  /**
   The service. `rank` is how the engine answers a query over the index as it is; the engine refuses a
   negative offset or size.
   */
  method SearchHotels(f: Filters, engineUp: bool, rank: Query -> seq<HotelDoc>) returns (r: Result<seq<HotelDoc>>)
    ensures var page, limit := f.page.GetOr(1), f.limit.GetOr(10);
            && (engineUp && page >= 1 && limit >= 1 ==>
                  r.Ok? && IsPage(r.value, rank(Compiled(f)), page, if limit > 50 then 50 else limit))
            && (engineUp && limit == 0 ==> r == Ok([]))
            && (!engineUp || limit < 0 || (page < 1 && limit > 0) ==> r == Err(InternalServer))
  {
    var query := BuildQuery(f);
    var page := f.page.GetOr(1);
    var limit := f.limit.GetOr(10);
    var from := (page - 1) * Min(limit, MAX_PAGE_SIZE);
    var size := Min(limit, MAX_PAGE_SIZE);
    if size >= 1 {
      FromSign(page, size);
    }
    if !engineUp || from < 0 || size < 0 {
      return Err(InternalServer);
    }
    var hits := rank(query);
    if page >= 1 {
      PageIsPart(hits, page, size);
    }
    return Ok(hits[Min(from, |hits|)..Min(from + size, |hits|)]);
  }

  // ---------------------------------------------------------------- search over the mirrored table

  /**
   Once every hotel's jobs are done and none was lost, search answers from the table: the hits are the
   documents of the active hotels that meet the filters, each on one page.
   */
  lemma SearchServesTheTable(es: seq<Event>, ss: seq<State>, i: nat, f: Filters, hits: seq<HotelDoc>, scoring: Scoring)
    requires IsRun(es, ss) && IsStart(ss[0]) && i <= |es|
    requires forall h: nat :: Settled(ss[i], h) && h !in ss[i].lost && NoUpdateAfterDelete(es, ss, h)
    requires IsRanking(hits, ss[i].index, Compiled(f), scoring)
    ensures forall doc :: doc in hits <==>
              (exists h: nat :: Active(ss[i], h) && DocOf(ss[i], h) == doc) && Wanted(f, doc, scoring)
  {
    var s := ss[i];
    forall h: nat
      ensures Agrees(s, h)
    {
      IndexAgreesWithTable(es, ss, i, h);
    }
    forall doc
      ensures doc in hits <==> (exists h: nat :: Active(s, h) && DocOf(s, h) == doc) && Wanted(f, doc, scoring)
    {
      CompiledSelectsWanted(f, doc, scoring);
      if h: nat :| h in s.index && s.index[h] == doc {
        assert Agrees(s, h);
        assert Active(s, h) && DocOf(s, h) == doc;
      }
      if h: nat :| Active(s, h) && DocOf(s, h) == doc {
        assert Agrees(s, h);
        assert h in s.index && s.index[h] == doc;
      }
    }
  }

  /** What the caller asked for, about a hotel's row and its categories; a name is matched by the engine. */
  ghost predicate RowWanted(f: Filters, row: Hotel, categories: seq<RoomCategory>) {
    && (f.location.Some? && f.location.value != "" ==> row.location == f.location.value)
    && (f.minRating.Some? ==> f.minRating.value <= row.rating.GetOr(0) as real / 100.0)
    && (f.maxRating.Some? ==> row.rating.GetOr(0) as real / 100.0 <= f.maxRating.value)
    && (forall p :: IsLeastPrice(p, categories) ==>
          && (f.minPrice.Some? ==> f.minPrice.value <= p as real) && (f.maxPrice.Some? ==> p as real <= f.maxPrice.value))
    && (f.roomType.Some? && f.roomType.value != "" ==>
          exists i :: 0 <= i < |categories| && Names(f.roomType.value, categories[i].roomType))
  }

  lemma OneLeastPrice(p: int, q: int, categories: seq<RoomCategory>)
    requires IsLeastPrice(p, categories) && IsLeastPrice(q, categories)
    ensures p == q
  {
  }

  lemma DocumentWantedIffRow(f: Filters, doc: HotelDoc, h: nat, row: Hotel, categories: seq<RoomCategory>, scoring: Scoring)
    requires IsDocumentOf(doc, h, row, categories)
    ensures Wanted(f, doc, scoring) <==>
              RowWanted(f, row, categories) && (f.name.Some? && f.name.value != "" ==> scoring(f.name.value, doc).Some?)
  {
    forall p | IsLeastPrice(p, categories)
      ensures p == doc.minPrice
    {
      OneLeastPrice(p, doc.minPrice, categories);
    }
  }

  /** The categories of a hotel. */
  function CategoriesIn(s: State, h: nat): seq<RoomCategory> {
    if h in s.categories then s.categories[h] else []
  }

  /**
   The same about the rows. Once every hotel is settled, each hit is the document of an active hotel, field by
   field; and a hotel is found exactly when its row and its categories meet the filters, and its text the name.
   */
  lemma SearchFindsTheRows(es: seq<Event>, ss: seq<State>, i: nat, f: Filters, hits: seq<HotelDoc>, scoring: Scoring, h: nat)
    requires IsRun(es, ss) && IsStart(ss[0]) && i <= |es|
    requires forall h: nat :: Settled(ss[i], h) && h !in ss[i].lost && NoUpdateAfterDelete(es, ss, h)
    requires IsRanking(hits, ss[i].index, Compiled(f), scoring)
    ensures forall doc :: doc in hits && doc.id == h ==>
              h in ss[i].hotels && IsDocumentOf(doc, h, ss[i].hotels[h], CategoriesIn(ss[i], h))
    ensures (exists doc :: doc in hits && doc.id == h) <==>
              && h in ss[i].hotels && !ss[i].hotels[h].deleted
              && RowWanted(f, ss[i].hotels[h], CategoriesIn(ss[i], h))
              && (f.name.Some? && f.name.value != "" ==> scoring(f.name.value, DocOf(ss[i], h)).Some?)
  {
    var s := ss[i];
    SearchServesTheTable(es, ss, i, f, hits, scoring);
    assert forall h: nat :: h in s.hotels ==> DocOf(s, h).id == h;
    if h in s.hotels {
      var doc := DocOf(s, h);
      DocumentSummarisesCategories(h, s.hotels[h], CategoriesIn(s, h));
      DocumentWantedIffRow(f, doc, h, s.hotels[h], CategoriesIn(s, h), scoring);
    }
    forall doc | doc in hits && doc.id == h
      ensures Active(s, h) && doc == DocOf(s, h)
    {
      var g: nat :| Active(s, g) && DocOf(s, g) == doc;
    }
  }
}
