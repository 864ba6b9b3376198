/** The `/recommend` endpoint of the back end: validation of the request body,
    the candidate set (every catalogue item that is not a favourite), ranking by
    the trained model's predicted rating, the genre/mood and era filters, the
    fallback to the top five predictions, and the cut to five records.

    The trained SVD model is the function `predict` of each catalogue (the
    rating estimate `svd.predict(new_user, item).est`); training, data loading
    and the appending of the new user's interactions are not modelled. A data
    frame is a sequence of rows. */
module Recommend {
  import opened Text
  import opened Ranking

  datatype Option<T> = None | Some(value: T)

  /** A JSON value used as an item id: the catalogues hold numbers, while the
      front end sends title strings. */
  datatype Key = Num(n: int) | Str(s: string)

  /** One catalogue row; a missing cell (NaN) is None. */
  datatype Item = Item(id: Key, title: Option<string>, genre: Option<string>, year: Option<int>)

  /** One of the four catalogues with its trained rating predictor. */
  datatype Catalog = Catalog(items: seq<Item>, predict: Key -> real)

  datatype Backend = Backend(movies: Catalog, tvshows: Catalog, anime: Catalog, books: Catalog)

  /** The catalogue a request type selects, and whether that frame has the
      `genre` and `year` columns (the book frame keeps only item_id, title,
      author, genres and avg_rating). */
  datatype Table = Table(catalog: Catalog, hasGenreYear: bool)

  datatype Preferences = Preferences(genre: Option<string>, mood: Option<string>, era: Option<string>)

  /** The JSON body: `type` (default ""), `favorites` (default []) and
      `preferences` (default {}). */
  datatype Request = Request(kind: string, favorites: seq<Key>, preferences: Preferences)

  /** One entry of `predictions`. */
  datatype Prediction = Prediction(id: Key, rating: real)

  /** A row of `recommendations_df`: a prediction merged with its catalogue row. */
  datatype Row = Row(id: Key, rating: real, title: Option<string>, genre: Option<string>, year: Option<int>)

  /** One record of the answer: `title`, `year`, `predicted_rating`. */
  datatype Recommendation = Recommendation(title: Option<string>, year: Option<int>, predictedRating: real)

  /** 200 with records, 400 with an error message, or an uncaught exception (500). */
  datatype Response = Ok(records: seq<Recommendation>) | BadRequest(message: string) | ServerError

  const NoFavorites := "Please provide at least one favorite."
  const TooManyFavorites := "Maximum of 5 favorites allowed."
  const InvalidType := "Invalid type. Use 'movies', 'tvshows', 'anime', or 'books'."

  const MaxFavorites: nat := 5
  const TopCount: nat := 10
  const ResultCount: nat := 5

  /** mood_to_genre. */
  const MoodToGenre: map<string, string> :=
    map["Happy" := "Comedy", "Sad" := "Drama", "Excited" := "Action", "Relaxed" := "Romance", "Curious" := "Mystery"]

  function TableFor(b: Backend, kind: string): Option<Table> {
    if kind == "movies" then Some(Table(b.movies, true))
    else if kind == "tvshows" then Some(Table(b.tvshows, true))
    else if kind == "anime" then Some(Table(b.anime, true))
    else if kind == "books" then Some(Table(b.books, false))
    else None
  }

  lemma TableForKnownTypes(b: Backend, kind: string)
    ensures TableFor(b, kind).Some? <==> kind in KnownTypes
    ensures TableFor(b, kind).Some? ==> (TableFor(b, kind).value.hasGenreYear <==> kind != "books")
  {
  }

  const KnownTypes: set<string> := {"movies", "tvshows", "anime", "books"}

  /** The 400 answer of the checks made before any work, in their order: an
      empty list first, then a long list, then the lower-cased type. */
  function ValidationError(r: Request): (e: Option<string>)
    ensures e == Some(NoFavorites) <==> |r.favorites| == 0
    ensures e == Some(TooManyFavorites) <==> |r.favorites| > MaxFavorites
    ensures e == Some(InvalidType) <==> 0 < |r.favorites| <= MaxFavorites && Lower(r.kind) !in KnownTypes
    ensures e.None? <==> 0 < |r.favorites| <= MaxFavorites && Lower(r.kind) in KnownTypes
  {
    if |r.favorites| == 0 then Some(NoFavorites)
    else if |r.favorites| > MaxFavorites then Some(TooManyFavorites)
    else if Lower(r.kind) !in KnownTypes then Some(InvalidType)
    else None
  }

  /** The first occurrence of each id of the catalogue, in catalogue order. */
  function DistinctIds(items: seq<Item>): (ids: seq<Key>)
    ensures forall k :: k in ids <==> exists i :: 0 <= i < |items| && items[i].id == k
    ensures forall i, j :: 0 <= i < j < |ids| ==> ids[i] != ids[j]
  {
    if items == [] then []
    else
      var rest := DistinctIds(items[..|items| - 1]);
      var k := items[|items| - 1].id;
      assert forall i :: 0 <= i < |items| - 1 ==> items[..|items| - 1][i] == items[i];
      if k in rest then rest else rest + [k]
  }

  predicate NotFavorite(favorites: seq<Key>, k: Key) {
    k !in favorites
  }

  /** `list(all_items - rated_items)`, enumerated in catalogue order. */
  function Candidates(items: seq<Item>, favorites: seq<Key>): seq<Key> {
    Filter(DistinctIds(items), k => NotFavorite(favorites, k))
  }

  /** The candidates are exactly the catalogue ids that are not favourites,
      each once. */
  lemma CandidatesAreUnratedItems(items: seq<Item>, favorites: seq<Key>)
    ensures forall k :: k in Candidates(items, favorites) <==>
      (exists i :: 0 <= i < |items| && items[i].id == k) && k !in favorites
    ensures forall i, j :: 0 <= i < j < |Candidates(items, favorites)| ==>
      Candidates(items, favorites)[i] != Candidates(items, favorites)[j]
  {
    var ids := DistinctIds(items);
    var keep := k => NotFavorite(favorites, k);
    FilterNoDuplicates(ids, keep);
    var cs := Filter(ids, keep);
    forall k ensures k in cs <==> k in ids && k !in favorites {
      if k in cs {
        var i :| 0 <= i < |cs| && cs[i] == k;
      }
      if k in ids && k !in favorites {
        var i :| 0 <= i < |ids| && ids[i] == k;
        assert keep(ids[i]);
      }
    }
  }

  lemma {:induction false} FilterNoDuplicates<T>(xs: seq<T>, keep: T -> bool)
    requires forall i, j :: 0 <= i < j < |xs| ==> xs[i] != xs[j]
    ensures forall i, j :: 0 <= i < j < |Filter(xs, keep)| ==> Filter(xs, keep)[i] != Filter(xs, keep)[j]
  {
    if xs != [] {
      var init := xs[..|xs| - 1];
      FilterNoDuplicates(init, keep);
      var x := xs[|xs| - 1];
      assert x !in init;
      var rest := Filter(init, keep);
      assert x !in rest;
    }
  }

  /** The for-loop's list: one prediction per candidate, in candidate order. */
  function PredictionsOf(candidates: seq<Key>, predict: Key -> real): (ps: seq<Prediction>)
    ensures |ps| == |candidates|
    ensures forall i :: 0 <= i < |ps| ==> ps[i] == Prediction(candidates[i], predict(candidates[i]))
  {
    seq(|candidates|, i requires 0 <= i < |candidates| => Prediction(candidates[i], predict(candidates[i])))
  }

  function RatingOf(p: Prediction): real {
    p.rating
  }

  /** `top_predictions`: the predictions sorted by rating, largest first, cut to ten. */
  function TopPredictions(candidates: seq<Key>, predict: Key -> real): seq<Prediction> {
    Take(SortDesc(PredictionsOf(candidates, predict), RatingOf), TopCount)
  }

  /** The top list holds at most ten predictions of candidates, largest rating
      first, and no candidate left out of it is rated above any that is in it. */
  lemma TopPredictionsAreBest(candidates: seq<Key>, predict: Key -> real)
    ensures |TopPredictions(candidates, predict)| == if |candidates| < TopCount then |candidates| else TopCount
    ensures SortedDesc(TopPredictions(candidates, predict), RatingOf)
    ensures forall p :: p in TopPredictions(candidates, predict) ==>
      p.id in candidates && p.rating == predict(p.id)
    ensures forall c :: c in candidates && Prediction(c, predict(c)) !in TopPredictions(candidates, predict) ==>
      forall p :: p in TopPredictions(candidates, predict) ==> p.rating >= predict(c)
  {
    var ps := PredictionsOf(candidates, predict);
    var sorted := SortDesc(ps, RatingOf);
    SortDescProperties(ps, RatingOf);
    var top := Take(sorted, TopCount);
    assert forall i :: 0 <= i < |top| ==> top[i] == sorted[i];
    forall p | p in top ensures p.id in candidates && p.rating == predict(p.id) {
      assert p in multiset(sorted);
      assert p in multiset(ps);
      var k :| 0 <= k < |ps| && ps[k] == p;
    }
    forall c | c in candidates && Prediction(c, predict(c)) !in top
      ensures forall p :: p in top ==> p.rating >= predict(c)
    {
      var k :| 0 <= k < |candidates| && candidates[k] == c;
      assert ps[k] == Prediction(c, predict(c));
      assert ps[k] in multiset(sorted);
      var m :| 0 <= m < |sorted| && sorted[m] == ps[k];
      assert m >= |top|;
      forall p | p in top ensures p.rating >= predict(c) {
        var i :| 0 <= i < |top| && top[i] == p;
        assert RatingOf(sorted[i]) >= RatingOf(sorted[m]);
      }
    }
  }

  /** The loop that fills `predictions` and the in-place sort and slice of
      that list. */
  method RankCandidates(candidates: seq<Key>, predict: Key -> real) returns (top: seq<Prediction>)
    ensures top == TopPredictions(candidates, predict)
  {
    var predictions: seq<Prediction> := [];
    for i := 0 to |candidates|
      invariant predictions == PredictionsOf(candidates[..i], predict)
    {
      var id := candidates[i];
      predictions := predictions + [Prediction(id, predict(id))];
    }
    assert candidates[..|candidates|] == candidates;
    var a := new Prediction[|predictions|](j requires 0 <= j < |predictions| => predictions[j]);
    assert a[..] == predictions;
    SortInPlace(a, RatingOf);
    top := if a.Length > TopCount then a[..TopCount] else a[..];
  }

  /** r carries the title, genre and year of a catalogue row with its id. */
  predicate FromCatalog(r: Row, items: seq<Item>) {
    exists it :: it in items && it.id == r.id && r.title == it.title && r.genre == it.genre && r.year == it.year
  }

  /** r has empty cells because no catalogue row has its id. */
  predicate Unmatched(r: Row, items: seq<Item>) {
    r.title.None? && r.genre.None? && r.year.None? && forall it :: it in items ==> it.id != r.id
  }

  /** The catalogue rows whose id is p's, in catalogue order. */
  function Hits(p: Prediction, items: seq<Item>): seq<Item> {
    Filter(items, (it: Item) => it.id == p.id)
  }

  /** The rows of `catalog` whose id is p's, merged with p (a left merge keeps
      p with empty cells when there is none). */
  function MatchRows(p: Prediction, items: seq<Item>): (rows: seq<Row>)
    ensures |rows| >= 1
    ensures forall r :: r in rows ==> r.id == p.id && r.rating == p.rating
  {
    var hits := Hits(p, items);
    if hits == [] then [Row(p.id, p.rating, None, None, None)]
    else seq(|hits|, i requires 0 <= i < |hits| => Row(p.id, p.rating, hits[i].title, hits[i].genre, hits[i].year))
  }

  /** The cells of p's rows: each catalogue row with p's id gives one row with
      its title, genre and year, in catalogue order, every row carries such
      cells, and with no catalogue row of that id the single row has empty
      cells. */
  lemma MatchRowsCells(p: Prediction, items: seq<Item>)
    ensures |MatchRows(p, items)| == if Hits(p, items) == [] then 1 else |Hits(p, items)|
    ensures Hits(p, items) != [] ==> forall i :: 0 <= i < |Hits(p, items)| ==>
      MatchRows(p, items)[i] == Row(p.id, p.rating, Hits(p, items)[i].title, Hits(p, items)[i].genre, Hits(p, items)[i].year)
    ensures forall r :: r in MatchRows(p, items) ==> FromCatalog(r, items) || Unmatched(r, items)
    ensures forall it :: it in items && it.id == p.id ==> Row(p.id, p.rating, it.title, it.genre, it.year) in MatchRows(p, items)
    ensures (forall it :: it in items ==> it.id != p.id) ==> MatchRows(p, items) == [Row(p.id, p.rating, None, None, None)]
  {
    var keep := (it: Item) => it.id == p.id;
    var hits := Hits(p, items);
    var rows := MatchRows(p, items);
    if hits == [] {
      forall it | it in items ensures it.id != p.id {
        FilterMembers(items, keep, it);
      }
    } else {
      forall it | it in items && it.id == p.id ensures Row(p.id, p.rating, it.title, it.genre, it.year) in rows {
        FilterMembers(items, keep, it);
        var i :| 0 <= i < |hits| && hits[i] == it;
        assert rows[i] == Row(p.id, p.rating, it.title, it.genre, it.year);
      }
      forall r | r in rows ensures FromCatalog(r, items) {
        var i :| 0 <= i < |rows| && rows[i] == r;
        assert hits[i] in items;
      }
    }
  }

  /** `pd.DataFrame(ps).merge(df, on=id, how='left')`: the matching rows of each
      prediction in turn, so there are at least as many rows as predictions and
      every row belongs to a prediction (MergeRows shows that each prediction
      keeps a row and what its cells are). */
  function Merge(ps: seq<Prediction>, items: seq<Item>): (rows: seq<Row>)
    ensures |rows| >= |ps|
    ensures forall r :: r in rows ==> exists p :: p in ps && r.id == p.id && r.rating == p.rating
  {
    if ps == [] then []
    else
      var init := Merge(ps[..|ps| - 1], items);
      var last := ps[|ps| - 1];
      var mine := MatchRows(last, items);
      assert forall p :: p in ps[..|ps| - 1] ==> p in ps;
      init + mine
  }

  /** A single prediction merges to its matching rows. */
  lemma MergeSingle(p: Prediction, items: seq<Item>)
    ensures Merge([p], items) == MatchRows(p, items)
  {
    assert [p][..0] == [];
  }

  lemma AppendAssoc<T>(x: seq<T>, y: seq<T>, z: seq<T>)
    ensures (x + y) + z == x + (y + z)
  {
  }

  lemma MergeSnoc(ps: seq<Prediction>, p: Prediction, items: seq<Item>)
    ensures Merge(ps + [p], items) == Merge(ps, items) + MatchRows(p, items)
  {
    assert (ps + [p])[..|ps|] == ps;
  }

  /** The merge keeps the left order: merging a + b gives the rows of a
      followed by the rows of b. */
  lemma {:induction false} MergeAppend(a: seq<Prediction>, b: seq<Prediction>, items: seq<Item>)
    ensures Merge(a + b, items) == Merge(a, items) + Merge(b, items)
    decreases |b|
  {
    if b == [] {
      assert a + b == a;
    } else {
      var init := b[..|b| - 1];
      var last := b[|b| - 1];
      assert a + b == (a + init) + [last];
      assert b == init + [last];
      MergeSnoc(a + init, last, items);
      MergeSnoc(init, last, items);
      MergeAppend(a, init, items);
      var ma, mi, ml := Merge(a, items), Merge(init, items), MatchRows(last, items);
      assert Merge(a + b, items) == (ma + mi) + ml;
      assert Merge(b, items) == mi + ml;
      AppendAssoc(ma, mi, ml);
    }
  }

  /** No prediction is lost by the merge, and every merged row carries the
      cells of the catalogue row with its id, or empty cells when there is none. */
  lemma {:induction false} MergeRows(ps: seq<Prediction>, items: seq<Item>)
    ensures forall i :: 0 <= i < |ps| ==>
      exists r :: r in Merge(ps, items) && r.id == ps[i].id && r.rating == ps[i].rating
    ensures forall r :: r in Merge(ps, items) ==> FromCatalog(r, items) || Unmatched(r, items)
  {
    if ps != [] {
      var init := ps[..|ps| - 1];
      var last := ps[|ps| - 1];
      MergeRows(init, items);
      var m := Merge(init, items);
      var mine := MatchRows(last, items);
      MatchRowsCells(last, items);
      assert Merge(ps, items) == m + mine;
      forall i | 0 <= i < |ps|
        ensures exists r :: r in Merge(ps, items) && r.id == ps[i].id && r.rating == ps[i].rating
      {
        if i < |ps| - 1 {
          assert ps[i] == init[i];
          var r :| r in m && r.id == init[i].id && r.rating == init[i].rating;
          assert r in Merge(ps, items);
        } else {
          assert mine[0] in mine;
          assert mine[0] in Merge(ps, items);
        }
      }
    }
  }

  function RowRating(r: Row): real {
    r.rating
  }

  /** Merging a descending list of predictions gives a descending list of rows. */
  lemma {:induction false} MergeKeepsOrder(ps: seq<Prediction>, items: seq<Item>)
    requires SortedDesc(ps, RatingOf)
    ensures SortedDesc(Merge(ps, items), RowRating)
  {
    if ps != [] {
      var init := ps[..|ps| - 1];
      var last := ps[|ps| - 1];
      assert SortedDesc(init, RatingOf);
      MergeKeepsOrder(init, items);
      var m := Merge(init, items);
      var rows := MatchRows(last, items);
      var all := m + rows;
      forall i, j | 0 <= i < j < |all| ensures all[i].rating >= all[j].rating {
        if i < |m| && j >= |m| {
          assert all[i] in m;
          var p :| p in init && all[i].id == p.id && all[i].rating == p.rating;
          var k :| 0 <= k < |init| && init[k] == p;
          assert ps[k] == p;
          assert all[j] in rows;
        } else if i >= |m| {
          assert all[i] in rows && all[j] in rows;
        }
      }
    }
  }

  /** `genre and genre != 'Select a genre'`. */
  predicate GenreSelected(prefs: Preferences) {
    prefs.genre.Some? && prefs.genre.value != "" && prefs.genre.value != "Select a genre"
  }

  /** `mood and mood in mood_to_genre`: an exact, case-sensitive key. */
  predicate MoodMapped(prefs: Preferences) {
    prefs.mood.Some? && prefs.mood.value != "" && prefs.mood.value in MoodToGenre
  }

  /** genre_filters: the selected genre, then the genre of a mapped mood. */
  function GenreFilters(prefs: Preferences): (fs: seq<string>)
    ensures |fs| == (if GenreSelected(prefs) then 1 else 0) + (if MoodMapped(prefs) then 1 else 0)
    ensures GenreSelected(prefs) ==> fs[0] == prefs.genre.value
    ensures MoodMapped(prefs) ==> fs[|fs| - 1] == MoodToGenre[prefs.mood.value]
    ensures forall f :: f in fs ==> f != ""
  {
    (if GenreSelected(prefs) then [prefs.genre.value] else []) +
    (if MoodMapped(prefs) then [MoodToGenre[prefs.mood.value]] else [])
  }

  /** A row survives the genre filter when its genre contains one of the
      alternatives of '|'.join(filters) (na=False drops a missing genre). */
  predicate GenreMatches(r: Row, pattern: string) {
    r.genre.Some? && MatchesPattern(r.genre.value, pattern)
  }

  /** The inclusive year range an era selects, if any. */
  function EraRange(era: Option<string>): Option<(int, int)> {
    if era.None? || era.value == "" || era.value == "Select an era" then None
    else if era.value == "1900-1950" then Some((1900, 1950))
    else if era.value == "1951-2000" then Some((1951, 2000))
    else if era.value == "2001-2025" then Some((2001, 2025))
    else None
  }

  /** A missing year compares false, so such a row is dropped. */
  predicate InRange(r: Row, lo: int, hi: int) {
    r.year.Some? && lo <= r.year.value <= hi
  }

  function ToRecord(r: Row): Recommendation {
    Recommendation(r.title, r.year, r.rating)
  }

  /** What the filters keep of the merged top ten, before the fallback. */
  function Filtered(merged: seq<Row>, prefs: Preferences): seq<Row> {
    var filters := GenreFilters(prefs);
    var pattern := Join(filters, '|');
    var afterGenre := if |filters| > 0 then Filter(merged, r => GenreMatches(r, pattern)) else merged;
    var range := EraRange(prefs.era);
    if range.Some? then Filter(afterGenre, r => InRange(r, range.value.0, range.value.1)) else afterGenre
  }

  /** The rows the answer is made of: the filtered rows, or the merged top five
      predictions when nothing survives, cut to five. */
  function FinalRows(top: seq<Prediction>, items: seq<Item>, prefs: Preferences): seq<Row> {
    var kept := Filtered(Merge(top, items), prefs);
    Take(if kept == [] then Merge(Take(top, ResultCount), items) else kept, ResultCount)
  }

  /** Everything after ranking. Reading a missing column raises (500): the
      merge of an empty prediction list has no id column, and the book frame
      has neither `genre` nor `year`, which the genre filter, the era filter
      and the final projection to title, year and rating all read. */
  function PostProcess(top: seq<Prediction>, t: Table, prefs: Preferences): Response {
    if top == [] || !t.hasGenreYear then ServerError
    else
      var rows := FinalRows(top, t.catalog.items, prefs);
      Ok(seq(|rows|, i requires 0 <= i < |rows| => ToRecord(rows[i])))
  }

  /** The whole endpoint. */
  function RecommendSpec(r: Request, b: Backend): Response {
    match ValidationError(r)
    case Some(message) => BadRequest(message)
    case None =>
      var t := TableFor(b, Lower(r.kind)).value;
      PostProcess(TopPredictions(Candidates(t.catalog.items, r.favorites), t.catalog.predict), t, r.preferences)
  }

  /** recommend(): the checks, then the ranking loop and sort, then the filters. */
  method Recommend(r: Request, b: Backend) returns (resp: Response)
    ensures resp == RecommendSpec(r, b)
  {
    var err := ValidationError(r);
    if err.Some? {
      return BadRequest(err.value);
    }
    var kind := Lower(r.kind);
    var t := TableFor(b, kind).value;
    var unrated := Candidates(t.catalog.items, r.favorites);
    var top := RankCandidates(unrated, t.catalog.predict);
    resp := PostProcess(top, t, r.preferences);
  }

  /** A row survives the filters exactly when it matches the genre pattern (if
      there is one) and lies in the era's range (if the era selects one); with
      neither, the rows are left as they are. Filtering keeps the order. */
  lemma FilteredRows(merged: seq<Row>, prefs: Preferences)
    ensures forall r :: r in Filtered(merged, prefs) <==>
      r in merged &&
      (|GenreFilters(prefs)| > 0 ==> GenreMatches(r, Join(GenreFilters(prefs), '|'))) &&
      (EraRange(prefs.era).Some? ==> InRange(r, EraRange(prefs.era).value.0, EraRange(prefs.era).value.1))
    ensures |GenreFilters(prefs)| == 0 && EraRange(prefs.era).None? ==> Filtered(merged, prefs) == merged
    ensures SortedDesc(merged, RowRating) ==> SortedDesc(Filtered(merged, prefs), RowRating)
  {
    var filters := GenreFilters(prefs);
    var pattern := Join(filters, '|');
    var g := r => GenreMatches(r, pattern);
    var afterGenre := if |filters| > 0 then Filter(merged, g) else merged;
    var range := EraRange(prefs.era);
    forall r ensures r in afterGenre <==> r in merged && (|filters| > 0 ==> GenreMatches(r, pattern)) {
      if |filters| > 0 {
        FilterMembers(merged, g, r);
      }
    }
    if range.Some? {
      var e := r => InRange(r, range.value.0, range.value.1);
      forall r ensures r in Filtered(merged, prefs) <==> r in afterGenre && e(r) {
        FilterMembers(afterGenre, e, r);
      }
    }
    if SortedDesc(merged, RowRating) {
      if |filters| > 0 {
        FilterKeepsOrder(merged, g, RowRating);
      }
      if range.Some? {
        FilterKeepsOrder(afterGenre, r => InRange(r, range.value.0, range.value.1), RowRating);
      }
    }
  }

  /** The genre pattern's alternatives are exactly the filter strings, since no
      genre or mapped mood holds a '|'. */
  lemma PatternAlternatives(prefs: Preferences)
    requires |GenreFilters(prefs)| > 0
    requires GenreSelected(prefs) ==> '|' !in prefs.genre.value
    ensures Split(Join(GenreFilters(prefs), '|'), '|') == GenreFilters(prefs)
  {
    var fs := GenreFilters(prefs);
    forall k | 0 <= k < |fs| ensures '|' !in fs[k] {
      if MoodMapped(prefs) && k == |fs| - 1 {
        assert fs[k] == MoodToGenre[prefs.mood.value];
      }
    }
    SplitJoin(fs, '|');
  }

  /** The rows of an answer: one to five, largest predicted rating first, each a
      row of a top prediction; the filtered rows when any survive, otherwise the
      merged top five. */
  lemma FinalRowsProperties(top: seq<Prediction>, items: seq<Item>, prefs: Preferences)
    requires top != [] && SortedDesc(top, RatingOf)
    ensures 1 <= |FinalRows(top, items, prefs)| <= ResultCount
    ensures SortedDesc(FinalRows(top, items, prefs), RowRating)
    ensures forall r :: r in FinalRows(top, items, prefs) ==>
      exists p :: p in top && r.id == p.id && r.rating == p.rating
    ensures forall r :: r in FinalRows(top, items, prefs) ==> FromCatalog(r, items) || Unmatched(r, items)
    ensures Filtered(Merge(top, items), prefs) != [] ==>
      FinalRows(top, items, prefs) == Take(Filtered(Merge(top, items), prefs), ResultCount)
    ensures Filtered(Merge(top, items), prefs) == [] ==>
      FinalRows(top, items, prefs) == Take(Merge(Take(top, ResultCount), items), ResultCount)
  {
    var merged := Merge(top, items);
    MergeKeepsOrder(top, items);
    FilteredRows(merged, prefs);
    var kept := Filtered(merged, prefs);
    if kept == [] {
      var five := Take(top, ResultCount);
      TakeKeepsOrder(top, ResultCount, RatingOf);
      MergeKeepsOrder(five, items);
      TakeKeepsOrder(Merge(five, items), ResultCount, RowRating);
      MergeRows(five, items);
      forall r | r in FinalRows(top, items, prefs) ensures exists p :: p in top && r.id == p.id && r.rating == p.rating {
        assert r in Merge(five, items);
        var p :| p in five && r.id == p.id && r.rating == p.rating;
        assert p in top;
      }
    } else {
      TakeKeepsOrder(kept, ResultCount, RowRating);
      MergeRows(top, items);
      forall r | r in FinalRows(top, items, prefs) ensures r in merged {
        assert r in kept;
      }
    }
  }

  /** The catalogue a valid request selects. */
  function Selected(r: Request, b: Backend): Table
    requires ValidationError(r).None?
  {
    TableFor(b, Lower(r.kind)).value
  }

  /** The rows behind a valid request's answer. */
  function AnswerRows(r: Request, b: Backend): seq<Row>
    requires ValidationError(r).None?
  {
    var t := Selected(r, b);
    FinalRows(TopPredictions(Candidates(t.catalog.items, r.favorites), t.catalog.predict), t.catalog.items, r.preferences)
  }

  /** A request is answered 400 exactly when a check fails, with that check's
      message. */
  lemma RejectedRequests(r: Request, b: Backend)
    ensures RecommendSpec(r, b).BadRequest? <==> ValidationError(r).Some?
    ensures ValidationError(r).Some? ==> RecommendSpec(r, b) == BadRequest(ValidationError(r).value)
  {
    if ValidationError(r).None? {
      var t := Selected(r, b);
      assert RecommendSpec(r, b) == PostProcess(TopPredictions(Candidates(t.catalog.items, r.favorites), t.catalog.predict), t, r.preferences);
    }
  }

  /** A valid request fails (500) exactly when it asks for books or when every
      catalogue item is a favourite; otherwise it is answered with records. */
  lemma ServerErrorCases(r: Request, b: Backend)
    requires ValidationError(r).None?
    ensures RecommendSpec(r, b) == ServerError <==>
      Lower(r.kind) == "books" ||
      forall i :: 0 <= i < |Selected(r, b).catalog.items| ==> Selected(r, b).catalog.items[i].id in r.favorites
    ensures RecommendSpec(r, b) != ServerError ==> RecommendSpec(r, b).Ok?
  {
    var t := Selected(r, b);
    var items := t.catalog.items;
    var cs := Candidates(items, r.favorites);
    CandidatesAreUnratedItems(items, r.favorites);
    TopPredictionsAreBest(cs, t.catalog.predict);
    TableForKnownTypes(b, Lower(r.kind));
    if !forall i :: 0 <= i < |items| ==> items[i].id in r.favorites {
      var i :| 0 <= i < |items| && items[i].id !in r.favorites;
      assert items[i].id in cs;
    }
  }

  /** The rows made from a non-empty candidate list: one to five, largest
      rating first, each for a catalogue item that is not a favourite, rated by
      the predictor. */
  lemma RowsOfCandidates(items: seq<Item>, favorites: seq<Key>, predict: Key -> real, prefs: Preferences)
    requires Candidates(items, favorites) != []
    ensures var rows := FinalRows(TopPredictions(Candidates(items, favorites), predict), items, prefs);
      1 <= |rows| <= ResultCount && SortedDesc(rows, RowRating) &&
      forall row :: row in rows ==>
        row.id !in favorites && (exists i :: 0 <= i < |items| && items[i].id == row.id) && row.rating == predict(row.id) &&
        FromCatalog(row, items)
  {
    var cs := Candidates(items, favorites);
    var top := TopPredictions(cs, predict);
    CandidatesAreUnratedItems(items, favorites);
    TopPredictionsAreBest(cs, predict);
    FinalRowsProperties(top, items, prefs);
    var rows := FinalRows(top, items, prefs);
    forall row | row in rows
      ensures row.id !in favorites
      ensures exists i :: 0 <= i < |items| && items[i].id == row.id
      ensures row.rating == predict(row.id)
      ensures FromCatalog(row, items)
    {
      var p :| p in top && row.id == p.id && row.rating == p.rating;
      assert p.id in cs;
      var i :| 0 <= i < |items| && items[i].id == row.id;
      assert items[i] in items;
    }
  }

  /** Some catalogue item that is not a favourite makes the candidates non-empty. */
  lemma CandidatesNonEmpty(items: seq<Item>, favorites: seq<Key>, i: int)
    requires 0 <= i < |items| && items[i].id !in favorites
    ensures Candidates(items, favorites) != []
  {
    CandidatesAreUnratedItems(items, favorites);
    assert items[i].id in Candidates(items, favorites);
  }

  /** A request answered with records is valid, is not for books, and has
      candidates. */
  lemma OkRequestIsValid(r: Request, b: Backend)
    requires RecommendSpec(r, b).Ok?
    ensures ValidationError(r).None? && Lower(r.kind) in KnownTypes - {"books"}
    ensures Candidates(Selected(r, b).catalog.items, r.favorites) != []
  {
    RejectedRequests(r, b);
    ServerErrorCases(r, b);
    var items := Selected(r, b).catalog.items;
    var i :| 0 <= i < |items| && items[i].id !in r.favorites;
    CandidatesNonEmpty(items, r.favorites, i);
  }

  /** The records of an answer are the projection of its answer rows. */
  lemma OkAnswerIsRows(r: Request, b: Backend)
    requires RecommendSpec(r, b).Ok?
    ensures ValidationError(r).None?
    ensures RecommendSpec(r, b).records ==
      seq(|AnswerRows(r, b)|, i requires 0 <= i < |AnswerRows(r, b)| => ToRecord(AnswerRows(r, b)[i]))
  {
    RejectedRequests(r, b);
    var t := Selected(r, b);
    var items := t.catalog.items;
    var top := TopPredictions(Candidates(items, r.favorites), t.catalog.predict);
    assert RecommendSpec(r, b) == PostProcess(top, t, r.preferences);
    assert AnswerRows(r, b) == FinalRows(top, items, r.preferences);
    PostProcessOk(top, t, r.preferences);
  }

  /** Records are the projection of the final rows. */
  lemma PostProcessOk(top: seq<Prediction>, t: Table, prefs: Preferences)
    requires PostProcess(top, t, prefs).Ok?
    ensures var rows := FinalRows(top, t.catalog.items, prefs);
      PostProcess(top, t, prefs).records == seq(|rows|, i requires 0 <= i < |rows| => ToRecord(rows[i]))
  {
  }

  /** An answer with records has one to five of them, largest predicted rating
      first, each the projection of a row whose id is a catalogue item that is
      not a favourite and whose rating is the predictor's for that item. */
  lemma RecommendOkProperties(r: Request, b: Backend)
    requires RecommendSpec(r, b).Ok?
    ensures ValidationError(r).None? && Lower(r.kind) in KnownTypes - {"books"}
    ensures |RecommendSpec(r, b).records| == |AnswerRows(r, b)|
    ensures forall i :: 0 <= i < |AnswerRows(r, b)| ==> RecommendSpec(r, b).records[i] == ToRecord(AnswerRows(r, b)[i])
    ensures 1 <= |RecommendSpec(r, b).records| <= ResultCount
    ensures forall i, j :: 0 <= i < j < |RecommendSpec(r, b).records| ==>
      RecommendSpec(r, b).records[i].predictedRating >= RecommendSpec(r, b).records[j].predictedRating
    ensures forall row :: row in AnswerRows(r, b) ==>
      row.id !in r.favorites &&
      (exists i :: 0 <= i < |Selected(r, b).catalog.items| && Selected(r, b).catalog.items[i].id == row.id) &&
      row.rating == Selected(r, b).catalog.predict(row.id) &&
      FromCatalog(row, Selected(r, b).catalog.items)
  {
    OkRequestIsValid(r, b);
    OkAnswerIsRows(r, b);
    var t := Selected(r, b);
    RowsOfCandidates(t.catalog.items, r.favorites, t.catalog.predict, r.preferences);
    var rows := AnswerRows(r, b);
    var recs := RecommendSpec(r, b).records;
    forall i, j | 0 <= i < j < |recs| ensures recs[i].predictedRating >= recs[j].predictedRating {
      assert RowRating(rows[i]) >= RowRating(rows[j]);
    }
  }

  /** The front end sends title strings as favourites; against a catalogue of
      numeric ids they exclude nothing, so every item is a candidate. */
  lemma StringFavoritesExcludeNothing(items: seq<Item>, favorites: seq<Key>)
    requires forall i :: 0 <= i < |items| ==> items[i].id.Num?
    requires forall k :: k in favorites ==> k.Str?
    ensures Candidates(items, favorites) == DistinctIds(items)
  {
    var ids := DistinctIds(items);
    forall i | 0 <= i < |ids| ensures NotFavorite(favorites, ids[i]) {
      assert ids[i] in ids;
    }
    FilterAll(ids, k => NotFavorite(favorites, k));
  }
}
