/** The movie page: the wizard whose "get recommendations" handler is a stub
    that, after a delay, shows the same five movies whatever was entered. The
    delay is not modelled: the timer firing is the method `TimerFires`. */
module MovieApp {
  import opened Wizard

  /** One entry of the stub's result list. */
  datatype MovieCard = MovieCard(id: int, title: string, year: int, rating: real, image: string)

  const Placeholder := "/api/placeholder/300/450"

  const MockMovies: seq<MovieCard> := [
    MovieCard(1, "Interstellar", 2014, 4.8, Placeholder),
    MovieCard(2, "The Shawshank Redemption", 1994, 4.9, Placeholder),
    MovieCard(3, "Pulp Fiction", 1994, 4.7, Placeholder),
    MovieCard(4, "The Dark Knight", 2008, 4.9, Placeholder),
    MovieCard(5, "Parasite", 2019, 4.8, Placeholder)
  ]

  /** The state once the stub's timer has fired. */
  function AfterStub(s: State<MovieCard>): (r: State<MovieCard>)
    ensures r.recommendations == MockMovies && !r.loading && r.step == 3
    ensures r.(recommendations := s.recommendations, loading := s.loading, step := s.step) == s
  {
    CompleteOutcomes(s, Success(MockMovies));
    Apply(s, Complete(Success(MockMovies)))
  }

  /** The stub always shows five movies with ids 1 to 5 in that order, whatever
      titles and details were entered before. */
  lemma StubIgnoresEntries(s: State<MovieCard>, t: State<MovieCard>)
    ensures AfterStub(Apply(s, Begin)).recommendations == AfterStub(Apply(t, Begin)).recommendations
    ensures |AfterStub(Apply(s, Begin)).recommendations| == 5
    ensures forall i :: 0 <= i < 5 ==> AfterStub(Apply(s, Begin)).recommendations[i].id == i + 1
  {
  }

  /** handleGetRecommendations before the timer: loading starts. */
  method GetRecommendations(w: Wizard<MovieCard>)
    modifies w
    ensures w.Snapshot() == Apply(old(w.Snapshot()), Begin)
    ensures old(w.Valid()) ==> w.Valid()
  {
    w.BeginRequest();
  }

  /** The timer's callback: the fixed list, then loading off, then step 3. */
  method TimerFires(w: Wizard<MovieCard>)
    modifies w
    ensures w.Snapshot() == AfterStub(old(w.Snapshot()))
    ensures old(w.Valid()) ==> w.Valid()
  {
    w.CompleteRequest(Success(MockMovies));
  }
}
