/** The search document of a hotel. */
module HotelDocument {
  import opened Wrappers

  datatype RoomType = SINGLE | DOUBLE | FAMILY | DELUXE | SUITE

  /** A row of `hotels`; ratings are in hundredths. */
  datatype Hotel = Hotel(name: string, address: string, location: string, rating: Option<int>,
                         ratingCount: Option<int>, deleted: bool)

  datatype RoomCategory = RoomCategory(price: Option<int>, roomType: RoomType)

  datatype HotelDoc = HotelDoc(id: nat, name: string, address: string, location: string, rating: int,
                               ratingCount: int, minPrice: int, roomTypes: seq<RoomType>)

  /** The prices that are not null, in order. */
  function Prices(categories: seq<RoomCategory>): seq<int> {
    if categories == [] then []
    else
      var rest := Prices(categories[..|categories| - 1]);
      var last := categories[|categories| - 1];
      if last.price.Some? then rest + [last.price.value] else rest
  }

  function Min(s: seq<int>): int
    requires s != []
  {
    if |s| == 1 then s[0]
    else
      var rest := Min(s[..|s| - 1]);
      if s[|s| - 1] < rest then s[|s| - 1] else rest
  }

  /** The elements of `s` at their first occurrences, like the members of a JavaScript Set. */
  function Distinct(s: seq<RoomType>): seq<RoomType> {
    if s == [] then []
    else
      var rest := Distinct(s[..|s| - 1]);
      if s[|s| - 1] in rest then rest else rest + [s[|s| - 1]]
  }

  function RoomTypes(categories: seq<RoomCategory>): seq<RoomType> {
    Distinct(seq(|categories|, i requires 0 <= i < |categories| => categories[i].roomType))
  }

  function TransformHotelToESDoc(id: nat, hotel: Hotel, categories: seq<RoomCategory>): HotelDoc {
    var prices := Prices(categories);
    HotelDoc(id, hotel.name, hotel.address, hotel.location, hotel.rating.GetOr(0), hotel.ratingCount.GetOr(0),
             if |prices| > 0 then Min(prices) else 0, RoomTypes(categories))
  }

  lemma {:induction false} PricesContents(categories: seq<RoomCategory>)
    ensures forall p :: p in Prices(categories) <==> exists i :: 0 <= i < |categories| && categories[i].price == Some(p)
  {
    if categories == [] {
    } else {
      var rest := categories[..|categories| - 1];
      PricesContents(rest);
      forall p
        ensures p in Prices(categories) <==> exists i :: 0 <= i < |categories| && categories[i].price == Some(p)
      {
        if p in Prices(rest) {
          var i :| 0 <= i < |rest| && rest[i].price == Some(p);
          assert categories[i].price == Some(p);
        }
        if i :| 0 <= i < |categories| && categories[i].price == Some(p) {
          if i < |rest| {
            assert rest[i].price == Some(p);
          }
        }
      }
    }
  }

  lemma {:induction false} MinIsLeast(s: seq<int>)
    requires s != []
    ensures Min(s) in s && forall x :: x in s ==> Min(s) <= x
  {
    if |s| <= 1 {
    } else {
      var rest := s[..|s| - 1];
      MinIsLeast(rest);
      forall x | x in s
        ensures Min(s) <= x
      {
        assert x in rest || x == s[|s| - 1];
      }
    }
  }

  lemma {:induction false} DistinctContents(s: seq<RoomType>)
    ensures forall t :: t in Distinct(s) <==> t in s
    ensures forall i, j :: 0 <= i < j < |Distinct(s)| ==> Distinct(s)[i] != Distinct(s)[j]
  {
    if s == [] {
    } else {
      DistinctContents(s[..|s| - 1]);
    }
  }

  /** Of two elements of Distinct, the first occurs in the sequence before any occurrence of the second. */
  lemma {:induction false} DistinctInOrder(s: seq<RoomType>, i: nat, j: nat, k: nat) returns (l: nat)
    requires i < j < |Distinct(s)| && k < |s| && s[k] == Distinct(s)[j]
    ensures l < k && s[l] == Distinct(s)[i]
  {
    var front, last := s[..|s| - 1], s[|s| - 1];
    var rest := Distinct(front);
    DistinctContents(front);
    if j < |rest| {
      assert rest[j] in front;
      var at :| 0 <= at < |front| && front[at] == rest[j];
      l := DistinctInOrder(front, i, j, if k < |front| then k else at);
    } else {
      assert rest[i] in front;
      assert forall at :: 0 <= at < |front| ==> front[at] != last;
      assert k == |front|;
      l :| 0 <= l < |front| && front[l] == rest[i];
    }
  }

  /** The least price that is not null, or 0 if all are. */
  ghost predicate IsLeastPrice(price: int, categories: seq<RoomCategory>) {
    && (forall i :: 0 <= i < |categories| && categories[i].price.Some? ==> price <= categories[i].price.value)
    && ((exists i :: 0 <= i < |categories| && categories[i].price == Some(price))
        || (price == 0 && forall i :: 0 <= i < |categories| ==> categories[i].price == None))
  }

  /** The types of the categories, each once, in the order in which they first occur. */
  ghost predicate AreTypesOf(types: seq<RoomType>, categories: seq<RoomCategory>) {
    && (forall t :: t in types <==> exists i :: 0 <= i < |categories| && categories[i].roomType == t)
    && (forall i, j :: 0 <= i < j < |types| ==> types[i] != types[j])
    && (forall i, j, k :: 0 <= i < j < |types| && 0 <= k < |categories| && categories[k].roomType == types[j] ==>
          exists l :: 0 <= l < k && categories[l].roomType == types[i])
  }

  /** What the index is to hold about a hotel: its row field by field, and a summary of its categories. */
  ghost predicate IsDocumentOf(doc: HotelDoc, id: nat, row: Hotel, categories: seq<RoomCategory>) {
    && doc.id == id && doc.name == row.name && doc.address == row.address && doc.location == row.location
    && doc.rating == (if row.rating.Some? then row.rating.value else 0)
    && doc.ratingCount == (if row.ratingCount.Some? then row.ratingCount.value else 0)
    && IsLeastPrice(doc.minPrice, categories) && AreTypesOf(doc.roomTypes, categories)
  }

  /** The transformer builds such a document. */
  lemma DocumentSummarisesCategories(id: nat, hotel: Hotel, categories: seq<RoomCategory>)
    ensures IsDocumentOf(TransformHotelToESDoc(id, hotel, categories), id, hotel, categories)
  {
    var prices := Prices(categories);
    PricesContents(categories);
    if |prices| > 0 {
      MinIsLeast(prices);
    }
    forall i | 0 <= i < |categories| && categories[i].price.Some?
      ensures categories[i].price.value in prices
    {
      var p := categories[i].price.value;
      assert categories[i].price == Some(p);
    }
    TypesAreThose(categories);
  }

  lemma TypesAreThose(categories: seq<RoomCategory>)
    ensures AreTypesOf(RoomTypes(categories), categories)
  {
    var types := seq(|categories|, i requires 0 <= i < |categories| => categories[i].roomType);
    DistinctContents(types);
    forall t
      ensures t in types <==> exists i :: 0 <= i < |categories| && categories[i].roomType == t
    {
      if i :| 0 <= i < |categories| && categories[i].roomType == t {
        assert types[i] == t;
      }
    }
    var once := RoomTypes(categories);
    forall i, j, k | 0 <= i < j < |once| && 0 <= k < |categories| && categories[k].roomType == once[j]
      ensures exists l :: 0 <= l < k && categories[l].roomType == once[i]
    {
      var l := DistinctInOrder(types, i, j, k);
      assert types[l] == categories[l].roomType;
    }
  }
}
