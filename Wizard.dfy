/** The three-step recommendation wizard that the movie, anime and book pages
    each implement with the same handlers: step 1 collects up to five favourite
    titles, step 2 collects optional details, step 3 shows the recommendations.

    The state of one wizard is the value `State`; every handler is one `Event`
    and `Apply` is the state after it. The class `Wizard` holds the same eight
    fields the components keep and updates them handler by handler; each of its
    methods is proved to leave exactly the state `Apply` describes. The only
    handler that differs between the three pages, "get recommendations", is
    split into `Begin` (loading starts) and `Complete(outcome)` (the response
    arrives), so that no I/O is modelled. */
module Wizard {
  import opened Text

  /** The list may hold at most this many titles. */
  const MaxTitles: nat := 5

  /** 1: add titles, 2: add details, 3: results. */
  type Step = n: int | 1 <= n <= 3 witness 1

  /** The four keys of `userDetails`. */
  datatype Field = Name | Genre | Era | Mood

  datatype Details = Details(name: string, genre: string, era: string, mood: string) {
    function Get(f: Field): string {
      match f
      case Name => name
      case Genre => genre
      case Era => era
      case Mood => mood
    }

    /** `{ ...userDetails, [name]: value }`: only key f changes. */
    function Set(f: Field, v: string): (d: Details)
      ensures d.Get(f) == v
      ensures forall g :: g != f ==> d.Get(g) == Get(g)
    {
      match f
      case Name => this.(name := v)
      case Genre => this.(genre := v)
      case Era => this.(era := v)
      case Mood => this.(mood := v)
    }
  }

  const NoDetails: Details := Details("", "", "", "")

  /** What a recommendation request delivers to the page. */
  datatype Outcome<R> = Success(data: seq<R>) | Failure

  datatype State<R> = State(
    titles: seq<string>,
    input: string,
    inputError: bool,
    maxReached: bool,
    details: Details,
    step: Step,
    loading: bool,
    recommendations: seq<R>)

  /** The values every `useState` call starts from. */
  function Initial<R>(): State<R> {
    State([], "", false, false, NoDetails, 1, false, [])
  }

  /** The user actions the handlers react to. */
  datatype Event<R> =
    | Input(text: string)           // typing in the title input
    | KeyPress(key: string)         // a key pressed in the title input
    | Add                           // the add button
    | Remove(index: int)            // the remove button of entry `index`
    | EditDetail(field: Field, value: string)
    | Continue                      // "Continue" on step 1
    | Back                          // "Back" on step 2
    | Begin                         // "Get recommendations": loading starts
    | Complete(outcome: Outcome<R>) // the request (or the stub's timer) finishes
    | StartOver

  /** Where `Array.prototype.splice(index, 1)` starts on a list of length len. */
  function SpliceStart(len: nat, index: int): (k: nat)
    ensures k <= len
    ensures 0 <= index <= len ==> k == index
    ensures -(len as int) <= index < 0 ==> k == len + index
  {
    if index < 0 then (if len + index < 0 then 0 else len + index)
    else if index > len then len
    else index
  }

  /** The list after `splice(index, 1)` on a copy of it. */
  function RemoveAt<T>(s: seq<T>, index: int): (r: seq<T>)
    ensures 0 <= index < |s| ==> r == s[..index] + s[index + 1..]
    ensures -|s| <= index < 0 ==> r == s[..|s| + index] + s[|s| + index + 1..]
    ensures index < -|s| && s != [] ==> r == s[1..]
    ensures index >= |s| ==> r == s
    ensures forall x :: x in r ==> x in s
  {
    var k := SpliceStart(|s|, index);
    if k < |s| then s[..k] + s[k + 1..] else s
  }

  /** The add handler: blank input is an error, a full list is refused, and
      otherwise the trimmed input is appended and the input cleared. */
  function AddPending<R>(s: State<R>): State<R> {
    var t := Trim(s.input);
    if t == "" then s.(inputError := true)
    else if |s.titles| >= MaxTitles then s.(maxReached := true)
    else
      s.(titles := s.titles + [t], input := "", inputError := false,
         maxReached := if |s.titles| == MaxTitles - 1 then true else s.maxReached)
  }

  /** The state after one handler runs. */
  function Apply<R>(s: State<R>, e: Event<R>): State<R> {
    match e
    case Input(text) => s.(input := text, inputError := false)
    case KeyPress(key) => if key == "Enter" then AddPending(s) else s
    case Add => AddPending(s)
    case Remove(index) => s.(titles := RemoveAt(s.titles, index), maxReached := false)
    case EditDetail(f, v) => s.(details := s.details.Set(f, v))
    case Continue => if |s.titles| > 0 then s.(step := 2) else s.(inputError := true)
    case Back => s.(step := 1)
    case Begin => s.(loading := true)
    case Complete(outcome) =>
      (match outcome
       case Success(data) => s.(recommendations := data, step := 3, loading := false)
       case Failure => s.(loading := false))
    case StartOver =>
      s.(titles := [], input := "", details := NoDetails, inputError := false,
         maxReached := false, step := 1, recommendations := [])
  }

  /** The state after a sequence of handlers. */
  function Run<R>(s: State<R>, es: seq<Event<R>>): State<R>
    decreases |es|
  {
    if es == [] then s else Run(Apply(s, es[0]), es[1..])
  }

  /** What holds in every reachable state: at most five titles, each one
      non-blank and already trimmed, and the max flag only on a full list. */
  ghost predicate Inv<R>(s: State<R>) {
    && |s.titles| <= MaxTitles
    && (forall t :: t in s.titles ==> t != "" && Trim(t) == t)
    && (s.maxReached ==> |s.titles| == MaxTitles)
  }

  /** The max flag is set exactly when the list is full. */
  predicate Synced<R>(s: State<R>) {
    s.maxReached <==> |s.titles| == MaxTitles
  }

  /** A removal that deletes an entry (the index splice normalizes lies in the list). */
  predicate RemovesEntry<R>(s: State<R>, e: Event<R>) {
    e.Remove? ==> -|s.titles| <= e.index < |s.titles|
  }

  lemma InitialIsValid<R>()
    ensures Inv(Initial<R>()) && Synced(Initial<R>())
  {
  }

  lemma AddPreservesInv<R>(s: State<R>)
    requires Inv(s)
    ensures Inv(AddPending(s))
  {
    var t := Trim(s.input);
    if t != "" && |s.titles| < MaxTitles {
      TrimIdempotent(s.input);
      var r := AddPending(s);
      assert r.titles == s.titles + [t];
      forall x | x in r.titles ensures x != "" && Trim(x) == x {
        if x !in s.titles { assert x == t; }
      }
    }
  }

  /** Every handler keeps the invariant. */
  lemma ApplyPreservesInv<R>(s: State<R>, e: Event<R>)
    requires Inv(s)
    ensures Inv(Apply(s, e))
  {
    match e
    case Add => AddPreservesInv(s);
    case KeyPress(key) => AddPreservesInv(s);
    case Remove(index) =>
      var r := Apply(s, e);
      assert forall x :: x in r.titles ==> x in s.titles;
    case _ =>
  }

  /** Every sequence of handlers keeps the invariant. */
  lemma {:induction false} RunPreservesInv<R>(s: State<R>, es: seq<Event<R>>)
    requires Inv(s)
    ensures Inv(Run(s, es))
    decreases |es|
  {
    if es != [] {
      ApplyPreservesInv(s, es[0]);
      RunPreservesInv(Apply(s, es[0]), es[1..]);
    }
  }

  /** From a fresh wizard, whatever the user does, the list never holds more
      than five titles and never a blank or untrimmed one. */
  lemma ReachableStatesAreValid<R>(es: seq<Event<R>>)
    ensures |Run(Initial<R>(), es).titles| <= MaxTitles
    ensures forall t :: t in Run(Initial<R>(), es).titles ==> t != "" && Trim(t) == t
  {
    RunPreservesInv(Initial<R>(), es);
  }

  /** Every handler keeps the max flag in step with a full list, provided a
      removal really deletes an entry. */
  lemma ApplyPreservesSynced<R>(s: State<R>, e: Event<R>)
    requires Inv(s) && Synced(s) && RemovesEntry(s, e)
    ensures Synced(Apply(s, e))
  {
    match e
    case Remove(index) =>
      assert |RemoveAt(s.titles, index)| == |s.titles| - 1;
    case Add =>
    case KeyPress(key) =>
    case _ =>
  }

  /** Each removal in es, in the state it is applied to, deletes an entry. */
  predicate RemovalsInRange<R>(s: State<R>, es: seq<Event<R>>)
    decreases |es|
  {
    es == [] || (RemovesEntry(s, es[0]) && RemovalsInRange(Apply(s, es[0]), es[1..]))
  }

  lemma {:induction false} RunPreservesSynced<R>(s: State<R>, es: seq<Event<R>>)
    requires Inv(s) && Synced(s) && RemovalsInRange(s, es)
    ensures Synced(Run(s, es))
    decreases |es|
  {
    if es != [] {
      ApplyPreservesInv(s, es[0]);
      ApplyPreservesSynced(s, es[0]);
      RunPreservesSynced(Apply(s, es[0]), es[1..]);
    }
  }

  /** Adding blank input (after trim) only raises the error flag. */
  lemma AddBlankIsRejected<R>(s: State<R>)
    requires Trim(s.input) == ""
    ensures Apply(s, Add) == s.(inputError := true)
  {
  }

  /** Adding to a full list only raises the max flag, so the list stays at five. */
  lemma AddToFullIsRejected<R>(s: State<R>)
    requires Trim(s.input) != "" && |s.titles| >= MaxTitles
    ensures Apply(s, Add) == s.(maxReached := true)
  {
  }

  /** A successful add appends the trimmed text at the end, keeps the earlier
      entries, clears the input and the error flag, and raises the max flag when
      the list becomes full. */
  lemma AddAppendsTrimmed<R>(s: State<R>)
    requires Inv(s) && Trim(s.input) != "" && |s.titles| < MaxTitles
    ensures Apply(s, Add).titles == s.titles + [Trim(s.input)]
    ensures Apply(s, Add).input == "" && !Apply(s, Add).inputError
    ensures Apply(s, Add).maxReached <==> |Apply(s, Add).titles| == MaxTitles
    ensures Apply(s, Add).(titles := s.titles, input := s.input, inputError := s.inputError,
                             maxReached := s.maxReached) == s
  {
  }

  /** Enter in the input is the add button; any other key does nothing. */
  lemma KeyPressIsAdd<R>(s: State<R>, key: string)
    ensures Apply(s, KeyPress(key)) == if key == "Enter" then Apply(s, Add) else s
  {
  }

  /** Typing replaces the input text and clears the error flag, nothing else. */
  lemma InputReplacesText<R>(s: State<R>, text: string)
    ensures Apply(s, Input(text)) == s.(input := text, inputError := false)
  {
  }

  /** Removing entry i deletes exactly that entry, keeps the others in order,
      and clears the max flag. */
  lemma RemoveDeletesEntry<R>(s: State<R>, i: int)
    requires 0 <= i < |s.titles|
    ensures |Apply(s, Remove(i)).titles| == |s.titles| - 1
    ensures forall k :: 0 <= k < i ==> Apply(s, Remove(i)).titles[k] == s.titles[k]
    ensures forall k :: i <= k < |s.titles| - 1 ==> Apply(s, Remove(i)).titles[k] == s.titles[k + 1]
    ensures !Apply(s, Remove(i)).maxReached
    ensures Apply(s, Remove(i)).(titles := s.titles, maxReached := s.maxReached) == s
  {
  }

  /** After removing an entry from a full list, the next non-blank add
      succeeds: the list is full again and ends with the new title. */
  lemma RemoveThenAddRefills<R>(s: State<R>, i: int, text: string)
    requires Inv(s) && |s.titles| == MaxTitles && 0 <= i < MaxTitles && Trim(text) != ""
    ensures var r := Apply(Apply(Apply(s, Remove(i)), Input(text)), Add);
      && r.titles == RemoveAt(s.titles, i) + [Trim(text)]
      && |r.titles| == MaxTitles
      && r.maxReached && !r.inputError && r.input == ""
  {
  }

  /** Editing one detail overwrites only that key; any string is accepted. */
  lemma EditDetailChangesOneKey<R>(s: State<R>, f: Field, v: string)
    ensures Apply(s, EditDetail(f, v)).details.Get(f) == v
    ensures forall g :: g != f ==> Apply(s, EditDetail(f, v)).details.Get(g) == s.details.Get(g)
    ensures Apply(s, EditDetail(f, v)).(details := s.details) == s
  {
  }

  /** Continue moves to step 2 exactly when a title is listed; otherwise it
      raises the error flag and the step stays where it was. */
  lemma ContinueGuarded<R>(s: State<R>)
    ensures Apply(s, Continue).step == 2 <==> (|s.titles| > 0 || s.step == 2)
    ensures |s.titles| > 0 ==> Apply(s, Continue) == s.(step := 2)
    ensures |s.titles| == 0 ==> Apply(s, Continue) == s.(inputError := true)
  {
  }

  /** Back returns to step 1 and touches nothing else, so the list is intact. */
  lemma BackOnlyResetsStep<R>(s: State<R>)
    ensures Apply(s, Back) == s.(step := 1)
  {
  }

  /** Starting a request only sets the loading flag; the step does not move. */
  lemma BeginOnlySetsLoading<R>(s: State<R>)
    ensures Apply(s, Begin) == s.(loading := true)
  {
  }

  /** A successful response becomes the recommendations and shows step 3; a
      failed one leaves step and recommendations as they were. Loading ends
      in both cases. */
  lemma CompleteOutcomes<R>(s: State<R>, o: Outcome<R>)
    ensures !Apply(s, Complete(o)).loading
    ensures o.Success? ==> Apply(s, Complete(o)) == s.(recommendations := o.data, step := 3, loading := false)
    ensures o.Failure? ==> Apply(s, Complete(o)) == s.(loading := false)
  {
  }

  /** Start over restores every field but the loading flag to its initial
      value, for any prior state, and is idempotent. */
  lemma StartOverResets<R>(s: State<R>)
    ensures Apply(s, StartOver) == Initial<R>().(loading := s.loading)
    ensures !s.loading ==> Apply(s, StartOver) == Initial<R>()
    ensures Apply(Apply(s, StartOver), StartOver) == Apply(s, StartOver)
  {
  }

  /** One wizard page: the eight fields of the component, updated by its handlers. */
  class Wizard<R> {
    var titles: seq<string>
    var input: string
    var inputError: bool
    var maxReached: bool
    var details: Details
    var step: Step
    var loading: bool
    var recommendations: seq<R>

    function Snapshot(): State<R>
      reads this
    {
      State(titles, input, inputError, maxReached, details, step, loading, recommendations)
    }

    ghost predicate Valid()
      reads this
    {
      Inv(Snapshot())
    }

    constructor ()
      ensures Snapshot() == Initial()
      ensures Valid() && Synced(Snapshot())
    {
      titles := [];
      input := "";
      inputError := false;
      maxReached := false;
      details := NoDetails;
      step := 1;
      loading := false;
      recommendations := [];
    }

    /** The input's onChange. */
    method ChangeInput(text: string)
      modifies this
      ensures Snapshot() == Apply(old(Snapshot()), Input(text))
      ensures old(Valid()) ==> Valid()
    {
      input := text;
      inputError := false;
    }

    /** handleAdd*: trim, reject blank, refuse a full list, else append. */
    method AddTitle()
      modifies this
      ensures Snapshot() == Apply(old(Snapshot()), Add)
      ensures old(Valid()) ==> Valid()
    {
      ghost var before := Snapshot();
      if Inv(before) { AddPreservesInv(before); }
      var trimmed := Trim(input);
      if trimmed == "" {
        inputError := true;
        return;
      }
      if |titles| >= MaxTitles {
        maxReached := true;
        return;
      }
      var count := |titles|;
      titles := titles + [trimmed];
      input := "";
      inputError := false;
      if count == MaxTitles - 1 {
        maxReached := true;
      }
    }

    /** handleKeyPress: Enter adds. */
    method HandleKeyPress(key: string)
      modifies this
      ensures Snapshot() == Apply(old(Snapshot()), KeyPress(key))
      ensures old(Valid()) ==> Valid()
    {
      if key == "Enter" {
        AddTitle();
      }
    }

    /** handleRemove*: splice a copy of the list at index, clear the max flag. */
    method RemoveTitle(index: int)
      modifies this
      ensures Snapshot() == Apply(old(Snapshot()), Remove(index))
      ensures old(Valid()) ==> Valid()
    {
      ghost var before := Snapshot();
      if Inv(before) { ApplyPreservesInv(before, Remove(index)); }
      var updated := titles;
      updated := RemoveAt(updated, index);
      titles := updated;
      maxReached := false;
    }

    /** handleDetailChange. */
    method ChangeDetail(f: Field, v: string)
      modifies this
      ensures Snapshot() == Apply(old(Snapshot()), EditDetail(f, v))
      ensures old(Valid()) ==> Valid()
    {
      details := details.Set(f, v);
    }

    /** handleContinueToDetails. */
    method ContinueToDetails()
      modifies this
      ensures Snapshot() == Apply(old(Snapshot()), Continue)
      ensures old(Valid()) ==> Valid()
    {
      if |titles| > 0 {
        step := 2;
      } else {
        inputError := true;
      }
    }

    /** The Back button of step 2. */
    method GoBack()
      modifies this
      ensures Snapshot() == Apply(old(Snapshot()), Back)
      ensures old(Valid()) ==> Valid()
    {
      step := 1;
    }

    /** The first statement of handleGetRecommendations. */
    method BeginRequest()
      modifies this
      ensures Snapshot() == Apply(old(Snapshot()), Begin)
      ensures old(Valid()) ==> Valid()
    {
      loading := true;
    }

    /** The rest of handleGetRecommendations, once the response (or the
        stub's timer) arrives. */
    method CompleteRequest(outcome: Outcome<R>)
      modifies this
      ensures Snapshot() == Apply(old(Snapshot()), Complete(outcome))
      ensures old(Valid()) ==> Valid()
    {
      match outcome {
        case Success(data) =>
          recommendations := data;
          step := 3;
        case Failure =>
      }
      loading := false;
    }

    /** handleStartOver. */
    method HandleStartOver()
      modifies this
      ensures Snapshot() == Apply(old(Snapshot()), StartOver)
      ensures Valid() && Synced(Snapshot())
    {
      titles := [];
      input := "";
      details := NoDetails;
      inputError := false;
      maxReached := false;
      step := 1;
      recommendations := [];
    }
  }
}
