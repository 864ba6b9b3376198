/** The `/search` endpoint of the back end: a case-insensitive match of the
    query against the titles of the catalogue the type selects, cut to ten
    rows. The projection of each row to its id, title and year (author for
    books) is not modelled: a hit is the whole catalogue row. */
module Search {
  import opened Text
  import opened Ranking
  import opened Recommend

  const SearchLimit: nat := 10

  /** A JSON list of rows, or 400 with an error message. */
  datatype SearchResponse = Hits(rows: seq<Item>) | SearchError(message: string)

  /** `df['title'].str.lower().str.contains(query, na=False)`: a missing title
      never matches. */
  predicate TitleMatches(query: string, it: Item) {
    it.title.Some? && MatchesPattern(Lower(it.title.value), query)
  }

  /** The rows of the selected catalogue whose title matches, in catalogue
      order. */
  function Matches(c: Catalog, query: string): seq<Item> {
    Filter(c.items, it => TitleMatches(query, it))
  }

  /** search(): an empty query is answered with no rows before the type is
      looked at; an unknown type is rejected; otherwise the first ten matches. */
  function Search(b: Backend, kind: string, query: string): (resp: SearchResponse)
    ensures Lower(query) == "" ==> resp == Hits([])
    ensures resp.SearchError? <==> query != "" && Lower(kind) !in KnownTypes
    ensures resp.SearchError? ==> resp.message == InvalidType
    ensures resp.Hits? ==> |resp.rows| <= SearchLimit
    ensures resp.Hits? && query != "" ==>
      forall i :: 0 <= i < |resp.rows| ==>
        resp.rows[i] in TableFor(b, Lower(kind)).value.catalog.items && TitleMatches(Lower(query), resp.rows[i])
  {
    var kind := Lower(kind);
    var query := Lower(query);
    if query == "" then Hits([])
    else match TableFor(b, kind)
      case None => SearchError(InvalidType)
      case Some(t) =>
        var hits := Take(Matches(t.catalog, query), SearchLimit);
        assert forall i :: 0 <= i < |hits| ==> hits[i] == Matches(t.catalog, query)[i];
        Hits(hits)
  }

  /** The hits of a search are the first ten matches in catalogue order,
      repeated rows included; when there are fewer than ten matches, every
      matching row is among them. */
  lemma SearchFindsFirstMatches(b: Backend, kind: string, query: string)
    requires query != "" && Lower(kind) in KnownTypes
    ensures Search(b, kind, query).Hits?
    ensures Search(b, kind, query).rows == Take(Matches(TableFor(b, Lower(kind)).value.catalog, Lower(query)), SearchLimit)
    ensures Search(b, kind, query).rows <= Matches(TableFor(b, Lower(kind)).value.catalog, Lower(query))
    ensures |Search(b, kind, query).rows| < SearchLimit ==>
      forall i ::
        (0 <= i < |TableFor(b, Lower(kind)).value.catalog.items| &&
         TitleMatches(Lower(query), TableFor(b, Lower(kind)).value.catalog.items[i])) ==>
        TableFor(b, Lower(kind)).value.catalog.items[i] in Search(b, kind, query).rows
  {
    TableForKnownTypes(b, Lower(kind));
    LowerEmptyIff(query);
    var c := TableFor(b, Lower(kind)).value.catalog;
    var ms := Matches(c, Lower(query));
    assert Search(b, kind, query).rows == Take(ms, SearchLimit);
    if |Take(ms, SearchLimit)| < SearchLimit {
      assert Take(ms, SearchLimit) == ms;
    }
  }
}
