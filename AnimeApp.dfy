/** The anime page: the wizard whose "get recommendations" handler posts the
    list and three of the four details to the back end's `/recommend` and shows
    the records of a successful answer. The fetch itself is not modelled: the
    back end's answer is an input to `ReceiveResponse`. */
module AnimeApp {
  import opened Text
  import opened Wizard
  import opened Recommend

  /** The `type` the anime page sends. */
  const AnimeType := "anime"

  /** The option values of the era and length selects of the details form. */
  const EraOptions: seq<string> := ["", "classic", "2000s", "2010s", "recent", "any"]
  const MoodOptions: seq<string> := ["", "short", "medium", "long", "very-long", "any"]

  /** The JSON body of the POST: the titles as the favourites, and the genre,
      mood and era of the details (the name is not sent). */
  function PayloadOf<R>(s: State<R>): (r: Request)
    ensures r.kind == AnimeType
    ensures |r.favorites| == |s.titles|
    ensures forall i :: 0 <= i < |s.titles| ==> r.favorites[i] == Str(s.titles[i])
    ensures r.preferences == Preferences(Some(s.details.genre), Some(s.details.mood), Some(s.details.era))
  {
    Request(AnimeType, seq(|s.titles|, i requires 0 <= i < |s.titles| => Str(s.titles[i])),
            Preferences(Some(s.details.genre), Some(s.details.mood), Some(s.details.era)))
  }

  /** A record the browser's JSON parser accepts: the back end writes a missing
      title or year (NaN) as the bare token `NaN`, which is not JSON. */
  predicate Parsable(rec: Recommendation) {
    rec.title.Some? && rec.year.Some?
  }

  /** What the page makes of the back end's answer: the records of a 200
      answer whose body parses, and a failure for an error status or a body
      that `response.json()` rejects (the handler throws and the catch only
      logs). */
  function OutcomeOf(resp: Response): (o: Outcome<Recommendation>)
    ensures o.Success? <==> resp.Ok? && forall i :: 0 <= i < |resp.records| ==> Parsable(resp.records[i])
    ensures o.Success? ==> o.data == resp.records
  {
    match resp
    case Ok(records) =>
      if forall i :: 0 <= i < |records| ==> Parsable(records[i]) then Success(records) else Failure
    case _ => Failure
  }

  /** A 200 answer with a missing title is not shown: the page stays where it
      was and only loading ends. */
  lemma MissingCellIsNotShown(s: State<Recommendation>)
    ensures var resp := Ok([Recommendation(None, Some(1999), 4.0)]);
      OutcomeOf(resp) == Failure &&
      Apply(Apply(s, Begin), Complete(OutcomeOf(resp))) == s.(loading := false)
  {
    var resp := Ok([Recommendation(None, Some(1999), 4.0)]);
    assert !Parsable(resp.records[0]);
    BeginOnlySetsLoading(s);
    CompleteOutcomes(s.(loading := true), OutcomeOf(resp));
  }

  /** The payload depends on the titles, genre, mood and era only: editing the
      name, typing, the flags, the step and the shown results do not change it. */
  lemma PayloadIgnoresOtherFields<R>(s: State<R>, t: State<R>)
    requires s.titles == t.titles
    requires s.details.genre == t.details.genre && s.details.mood == t.details.mood && s.details.era == t.details.era
    ensures PayloadOf(s) == PayloadOf(t)
  {
    assert PayloadOf(s).favorites == PayloadOf(t).favorites;
  }

  /** A request built from a valid wizard state passes the back end's checks
      exactly when at least one title is listed: the list never exceeds the
      back end's limit, and the type is known. */
  lemma PayloadPassesValidation<R>(s: State<R>)
    requires Inv(s)
    ensures ValidationError(PayloadOf(s)).None? <==> |s.titles| > 0
    ensures |s.titles| == 0 ==> ValidationError(PayloadOf(s)) == Some(NoFavorites)
  {
    var r := PayloadOf(s);
    assert Lower(AnimeType) == AnimeType;
    assert |r.favorites| <= MaxFavorites;
  }

  /** Every choice of the era select and the length select leaves the back
      end's era and mood filters unused: none is an era range or a mood key. */
  lemma FormChoicesSelectNoFilter<R>(s: State<R>)
    requires s.details.era in EraOptions && s.details.mood in MoodOptions
    ensures EraRange(PayloadOf(s).preferences.era).None?
    ensures !MoodMapped(PayloadOf(s).preferences)
  {
  }

  /** The titles sent as favourites are strings, so against a catalogue of
      numeric ids they exclude no item from the candidates. */
  lemma TitlesExcludeNoItem<R>(s: State<R>, items: seq<Item>)
    requires forall i :: 0 <= i < |items| ==> items[i].id.Num?
    ensures Candidates(items, PayloadOf(s).favorites) == DistinctIds(items)
  {
    var favs := PayloadOf(s).favorites;
    assert forall i :: 0 <= i < |favs| ==> favs[i].Str?;
    StringFavoritesExcludeNothing(items, favs);
  }

  /** After the request completes, the records of a 200 answer whose body
      parses are shown on step 3; any other answer leaves the step and the
      shown results as they were. Loading is over either way. */
  lemma ResponseIsShown(s: State<Recommendation>, resp: Response)
    ensures !Apply(Apply(s, Begin), Complete(OutcomeOf(resp))).loading
    ensures resp.Ok? && (forall i :: 0 <= i < |resp.records| ==> Parsable(resp.records[i])) ==>
      Apply(Apply(s, Begin), Complete(OutcomeOf(resp))) == s.(recommendations := resp.records, step := 3, loading := false)
    ensures !(resp.Ok? && forall i :: 0 <= i < |resp.records| ==> Parsable(resp.records[i])) ==>
      Apply(Apply(s, Begin), Complete(OutcomeOf(resp))) == s.(loading := false)
  {
    BeginOnlySetsLoading(s);
    CompleteOutcomes(s.(loading := true), OutcomeOf(resp));
  }

  /** The first half of handleGetRecommendations: loading starts and the body
      of the POST is built from the current state. */
  method SubmitRequest(w: Wizard<Recommendation>) returns (payload: Request)
    modifies w
    ensures payload == PayloadOf(old(w.Snapshot()))
    ensures w.Snapshot() == Apply(old(w.Snapshot()), Begin)
    ensures old(w.Valid()) ==> w.Valid()
  {
    payload := PayloadOf(w.Snapshot());
    w.BeginRequest();
  }

  /** The second half: the answer is applied and loading ends. */
  method ReceiveResponse(w: Wizard<Recommendation>, resp: Response)
    modifies w
    ensures w.Snapshot() == Apply(old(w.Snapshot()), Complete(OutcomeOf(resp)))
    ensures old(w.Valid()) ==> w.Valid()
  {
    w.CompleteRequest(OutcomeOf(resp));
  }
}
