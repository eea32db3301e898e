/** The home page's analysis state machine: two state cells,
    `analysisData` and `isAnalyzing`, overwritten by the four handlers the
    page passes down to the upload zone and the results view, and the choice
    of what the page shows. */
module Page {
  import opened Wrappers
  import opened Analysis

  /** The two state cells, as a value. */
  datatype PageState = PageState(analysisData: Option<AnalysisData>, isAnalyzing: bool)

  /** No data, not analyzing. */
  const Initial := PageState(None, false)

  /** One call of one of the four handlers. */
  datatype Event = Start | Complete(data: AnalysisData) | Error | Reset

  /** What one handler does to the state. A handler only sets cells, so the
      order of its two setter calls does not matter. */
  function Step(s: PageState, e: Event): PageState {
    match e
    case Start => PageState(None, true)
    case Complete(d) => PageState(Some(d), false)
    case Error => PageState(s.analysisData, false)
    case Reset => PageState(None, false)
  }

  /** The state after handling `events` in order, starting from `s`. */
  function Run(s: PageState, events: seq<Event>): PageState
    decreases |events|
  {
    if events == [] then s else Run(Step(s, events[0]), events[1..])
  }

  /** The page's invariant: no result is shown while an analysis runs. */
  predicate Consistent(s: PageState) {
    !(s.analysisData.Some? && s.isAnalyzing)
  }

  lemma {:induction false} RunAppend(s: PageState, events: seq<Event>, e: Event)
    ensures Run(s, events + [e]) == Step(Run(s, events), e)
    decreases |events|
  {
    if events == [] {
      assert events + [e] == [e];
    } else {
      assert (events + [e])[1..] == events[1..] + [e];
      RunAppend(Step(s, events[0]), events[1..], e);
    }
  }

  /** Every handler leaves a consistent state, whatever it started from. */
  lemma StepConsistent(s: PageState, e: Event)
    ensures Consistent(Step(s, e))
  {
  }

  /** After any sequence of handler calls, data is never present while
      analyzing is true. */
  lemma {:induction false} RunConsistent(s: PageState, events: seq<Event>)
    requires Consistent(s)
    ensures Consistent(Run(s, events))
    decreases |events|
  {
    if events != [] {
      StepConsistent(s, events[0]);
      RunConsistent(Step(s, events[0]), events[1..]);
    }
  }

  /** Reset returns to the initial state from anywhere, so a second reset
      changes nothing. */
  lemma ResetIdempotent(s: PageState, events: seq<Event>)
    ensures Run(s, events + [Reset]) == Initial
    ensures Run(s, events + [Reset, Reset]) == Run(s, events + [Reset])
  {
    RunAppend(s, events, Reset);
    RunAppend(s, events + [Reset], Reset);
    assert events + [Reset] + [Reset] == events + [Reset, Reset];
  }

  /** There is no staleness check: a completion is stored in every state,
      even one that arrives after the user has reset the page. */
  lemma {:induction false} LateCompletionIsStored(s: PageState, events: seq<Event>, d: AnalysisData)
    ensures Run(s, events + [Reset, Complete(d)]) == PageState(Some(d), false)
  {
    RunAppend(s, events + [Reset], Complete(d));
    assert events + [Reset] + [Complete(d)] == events + [Reset, Complete(d)];
  }

  /** What the page's main area shows, in order. */
  datatype Panel = UploadZone | Spinner | Results(data: AnalysisData)

  predicate ShowsResults(view: seq<Panel>) {
    exists i :: 0 <= i < |view| && view[i].Results?
  }

  /** The view choice: the upload zone (with the spinner below it while
      analyzing) when there is no data, the results for the data otherwise. */
  function Render(s: PageState): (view: seq<Panel>)
    ensures UploadZone in view <==> s.analysisData.None?
    ensures Spinner in view <==> s.analysisData.None? && s.isAnalyzing
    ensures ShowsResults(view) <==> s.analysisData.Some?
    ensures forall i :: 0 <= i < |view| && view[i].Results? ==> s.analysisData == Some(view[i].data)
    ensures !(UploadZone in view && ShowsResults(view))
  {
    var view := (if s.analysisData.None? then [UploadZone] + (if s.isAnalyzing then [Spinner] else []) else [])
      + (match s.analysisData case Some(d) => [Results(d)] case None => []);
    assert s.analysisData.Some? ==> view[0].Results?;
    view
  }

  /** In every reachable state the page shows exactly one of: the upload
      zone, the upload zone with the spinner, or the results alone. */
  lemma ReachableView(events: seq<Event>)
    ensures var s := Run(Initial, events);
      Render(s) == (match s.analysisData
                    case Some(d) => [Results(d)]
                    case None => if s.isAnalyzing then [UploadZone, Spinner] else [UploadZone])
  {
    RunConsistent(Initial, events);
  }

  /** The page component's two state cells. `history` records the handler
      calls so far, so that the invariant can be stated over them. */
  class Home {
    var analysisData: Option<AnalysisData>
    var isAnalyzing: bool
    ghost var history: seq<Event>

    function State(): PageState
      reads this
    {
      PageState(analysisData, isAnalyzing)
    }

    ghost predicate Valid()
      reads this
    {
      State() == Run(Initial, history) && Consistent(State())
    }

    /** `useState(null)` and `useState(false)`. */
    constructor ()
      ensures Valid() && history == []
      ensures analysisData == None && !isAnalyzing
    {
      analysisData := None;
      isAnalyzing := false;
      history := [];
    }

    method HandleAnalysisComplete(data: AnalysisData)
      requires Valid()
      modifies this
      ensures Valid() && history == old(history) + [Complete(data)]
      ensures analysisData == Some(data) && !isAnalyzing
    {
      RunAppend(Initial, history, Complete(data));
      analysisData := Some(data);
      isAnalyzing := false;
      history := history + [Complete(data)];
    }

    method HandleAnalysisStart()
      requires Valid()
      modifies this
      ensures Valid() && history == old(history) + [Start]
      ensures analysisData == None && isAnalyzing
    {
      RunAppend(Initial, history, Start);
      isAnalyzing := true;
      analysisData := None;
      history := history + [Start];
    }

    method HandleAnalysisError()
      requires Valid()
      modifies this
      ensures Valid() && history == old(history) + [Error]
      ensures analysisData == old(analysisData) && !isAnalyzing
    {
      RunAppend(Initial, history, Error);
      isAnalyzing := false;
      history := history + [Error];
    }

    method HandleReset()
      requires Valid()
      modifies this
      ensures Valid() && history == old(history) + [Reset]
      ensures analysisData == None && !isAnalyzing
    {
      RunAppend(Initial, history, Reset);
      analysisData := None;
      isAnalyzing := false;
      history := history + [Reset];
    }
  }
}
