/** The book page: the wizard whose "get recommendations" handler is a stub
    that, after a delay, shows the same five books whatever was entered. The
    delay is not modelled: the timer firing is the method `TimerFires`. */
module BookApp {
  import opened Wizard

  /** One entry of the stub's result list. */
  datatype BookCard = BookCard(id: int, title: string, author: string, year: int, rating: real, image: string)

  const Placeholder := "/api/placeholder/300/450"

  const MockBooks: seq<BookCard> := [
    BookCard(1, "To Kill a Mockingbird", "Harper Lee", 1960, 4.8, Placeholder),
    BookCard(2, "1984", "George Orwell", 1949, 4.7, Placeholder),
    BookCard(3, "The Great Gatsby", "F. Scott Fitzgerald", 1925, 4.5, Placeholder),
    BookCard(4, "The Lord of the Rings", "J.R.R. Tolkien", 1954, 4.9, Placeholder),
    BookCard(5, "Project Hail Mary", "Andy Weir", 2021, 4.8, Placeholder)
  ]

  /** The state once the stub's timer has fired. */
  function AfterStub(s: State<BookCard>): (r: State<BookCard>)
    ensures r.recommendations == MockBooks && !r.loading && r.step == 3
    ensures r.(recommendations := s.recommendations, loading := s.loading, step := s.step) == s
  {
    CompleteOutcomes(s, Success(MockBooks));
    Apply(s, Complete(Success(MockBooks)))
  }

  /** The stub always shows five books with ids 1 to 5 in that order, whatever
      titles and details were entered before. */
  lemma StubIgnoresEntries(s: State<BookCard>, t: State<BookCard>)
    ensures AfterStub(Apply(s, Begin)).recommendations == AfterStub(Apply(t, Begin)).recommendations
    ensures |AfterStub(Apply(s, Begin)).recommendations| == 5
    ensures forall i :: 0 <= i < 5 ==> AfterStub(Apply(s, Begin)).recommendations[i].id == i + 1
  {
  }

  /** handleGetRecommendations before the timer: loading starts. */
  method GetRecommendations(w: Wizard<BookCard>)
    modifies w
    ensures w.Snapshot() == Apply(old(w.Snapshot()), Begin)
    ensures old(w.Valid()) ==> w.Valid()
  {
    w.BeginRequest();
  }

  /** The timer's callback: the fixed list, then loading off, then step 3. */
  method TimerFires(w: Wizard<BookCard>)
    modifies w
    ensures w.Snapshot() == AfterStub(old(w.Snapshot()))
    ensures old(w.Valid()) ==> w.Valid()
  {
    w.CompleteRequest(Success(MockBooks));
  }
}
