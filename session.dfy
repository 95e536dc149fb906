/**
 * The module-level session state of neetMockTest/script.js (lines 13-19) and
 * the operations that change it: loadQuestion, navigate, renderPage,
 * selectOption, clearSelection, submitTest and the timer callback.
 * The pdf.js render is an external call whose outcome is an input; the
 * ghost counter renderCalls counts how often it is requested. DOM updates and
 * the scroll position are not modelled.
 */
module Session {
  import opened Wrappers
  import opened Config
  import opened Scoring
  import opened Countdown
  import ReportLayout
  import Find

  /** One QUESTION_LOCATIONS record (question number s_no and page); its y offset is not modelled. */
  datatype Location = Location(sNo: int, page: int)

  /** QUESTION_LOCATIONS.find(item => item.s_no === sNo). */
  function FindLocation(locations: seq<Location>, sNo: int): (r: Option<Location>)
    ensures r.None? <==> forall k :: 0 <= k < |locations| ==> locations[k].sNo != sNo
    ensures r.Some? ==> r.value.sNo == sNo
    ensures r.Some? ==> (exists j :: 0 <= j < |locations| && locations[j] == r.value
                                     && forall k :: 0 <= k < j ==> locations[k].sNo != sNo)
  {
    Find.FindFirst(locations, (item: Location) => item.sNo == sNo)
  }

  /** What renderPage does to the single-entry cache: the new cached page, and whether pdf.js was called. */
  datatype RenderOutcome = RenderOutcome(cached: int, invoked: bool)

  /**
   * renderPage(pageNum): no work when pageNum is the cached page; otherwise the
   * page is rendered, and the cache is updated only if that render completes.
   */
  function RenderCache(cached: int, pageNum: int, renderSucceeds: bool): (r: RenderOutcome)
    ensures r.invoked <==> cached != pageNum
    ensures renderSucceeds ==> r.cached == pageNum
    ensures r.cached == pageNum || r.cached == cached
  {
    if cached == pageNum then RenderOutcome(cached, false)
    else RenderOutcome(if renderSucceeds then pageNum else cached, true)
  }

  /** The cache skips exactly the requests for the page already shown, and a completed render is recorded. */
  lemma RenderCacheHit(cached: int, pageNum: int, renderSucceeds: bool)
    ensures !RenderCache(cached, pageNum, renderSucceeds).invoked <==> cached == pageNum
    ensures renderSucceeds ==> RenderCache(cached, pageNum, renderSucceeds).cached == pageNum
    ensures !renderSucceeds ==> RenderCache(cached, pageNum, renderSucceeds).cached == cached
  {
  }

  /** Two consecutive requests for the same page call the renderer at most once, and only the first may. */
  lemma RenderTwiceRendersOnce(cached: int, pageNum: int, second: bool)
    ensures var first := RenderCache(cached, pageNum, true);
      first.cached == pageNum && !RenderCache(first.cached, pageNum, second).invoked
  {
    RenderCacheHit(cached, pageNum, true);
  }

  class ExamSession {
    var currentQIndex: int
    const userResponses: array<Option<string>>
    const visitedQuestions: array<bool>
    var currentPageRendered: int
    /** window.testResultData, set by submitTest. */
    var testResultData: Option<Summary>
    /** How many times the external renderer has been asked for a page. */
    ghost var renderCalls: nat

    ghost predicate Valid()
      reads this
    {
      userResponses.Length == TOTAL_QUESTIONS
      && visitedQuestions.Length == TOTAL_QUESTIONS
      && 0 <= currentQIndex < TOTAL_QUESTIONS
    }

    /** Lines 13-19: index 0, every response null, nothing visited, no page rendered. */
    constructor ()
      ensures Valid() && fresh(userResponses) && fresh(visitedQuestions)
      ensures currentQIndex == 0 && currentPageRendered == 0 && renderCalls == 0
      ensures testResultData == None
      ensures forall i :: 0 <= i < TOTAL_QUESTIONS ==> userResponses[i] == None && !visitedQuestions[i]
    {
      currentQIndex := 0;
      userResponses := new Option<string>[TOTAL_QUESTIONS](_ => None);
      visitedQuestions := new bool[TOTAL_QUESTIONS](_ => false);
      currentPageRendered := 0;
      testResultData := None;
      renderCalls := 0;
    }

    /** renderPage: returns whether the external renderer was called. */
    method RenderPage(pageNum: int, renderSucceeds: bool) returns (invoked: bool)
      requires Valid()
      modifies this`currentPageRendered, this`renderCalls
      ensures Valid()
      ensures RenderOutcome(currentPageRendered, invoked) == RenderCache(old(currentPageRendered), pageNum, renderSucceeds)
      ensures renderCalls == old(renderCalls) + if invoked then 1 else 0
    {
      if currentPageRendered == pageNum {
        return false;
      }
      renderCalls := renderCalls + 1;
      invoked := true;
      if renderSucceeds {
        currentPageRendered := pageNum;
      }
    }

    /**
     * The whole effect of loadQuestion(index): out of range, nothing changes;
     * otherwise the pointer moves, that one slot is marked visited, and the
     * question's page (if it has a location) goes through the render cache.
     * Responses never change.
     */
    twostate predicate LoadedTo(index: int, locations: seq<Location>, renderSucceeds: bool)
      reads this, userResponses, visitedQuestions
    {
      visitedQuestions.Length == TOTAL_QUESTIONS
      && userResponses[..] == old(userResponses[..]) && testResultData == old(testResultData)
      && if index < 0 || index >= TOTAL_QUESTIONS then
        currentQIndex == old(currentQIndex) && visitedQuestions[..] == old(visitedQuestions[..])
        && currentPageRendered == old(currentPageRendered) && renderCalls == old(renderCalls)
      else
        currentQIndex == index && visitedQuestions[..] == old(visitedQuestions[..])[index := true]
        && match FindLocation(locations, index + 1)
           case None => currentPageRendered == old(currentPageRendered) && renderCalls == old(renderCalls)
           case Some(loc) =>
             var r := RenderCache(old(currentPageRendered), loc.page, renderSucceeds);
             currentPageRendered == r.cached && renderCalls == old(renderCalls) + if r.invoked then 1 else 0
    }

    method LoadQuestion(index: int, locations: seq<Location>, renderSucceeds: bool)
      requires Valid()
      modifies this, visitedQuestions
      ensures Valid()
      ensures LoadedTo(index, locations, renderSucceeds)
      ensures forall j :: 0 <= j < TOTAL_QUESTIONS && old(visitedQuestions[j]) ==> visitedQuestions[j]
    {
      if index < 0 || index >= TOTAL_QUESTIONS {
        return;
      }
      currentQIndex := index;
      visitedQuestions[index] := true;
      var coord := FindLocation(locations, index + 1);
      if coord.Some? {
        var _ := RenderPage(coord.value.page, renderSucceeds);
      }
    }

    /** navigate(dir) is loadQuestion(currentQIndex + dir). */
    method Navigate(dir: int, locations: seq<Location>, renderSucceeds: bool)
      requires Valid()
      modifies this, visitedQuestions
      ensures Valid()
      ensures LoadedTo(old(currentQIndex) + dir, locations, renderSucceeds)
      ensures forall j :: 0 <= j < TOTAL_QUESTIONS && old(visitedQuestions[j]) ==> visitedQuestions[j]
    {
      LoadQuestion(currentQIndex + dir, locations, renderSucceeds);
    }

    /** selectOption(opt): the current slot now holds opt, whatever it held; no other slot changes. */
    method SelectOption(opt: string)
      requires Valid()
      modifies userResponses
      ensures userResponses[..] == old(userResponses[..])[currentQIndex := Some(opt)]
    {
      userResponses[currentQIndex] := Some(opt);
    }

    /** clearSelection(): the current slot is null again; no other slot changes. */
    method ClearSelection()
      requires Valid()
      modifies userResponses
      ensures userResponses[..] == old(userResponses[..])[currentQIndex := None]
    {
      userResponses[currentQIndex] := None;
    }

    /** submitTest: clear the interval, score the responses and publish the result record. */
    method SubmitTest(timer: Timer, answerKey: Option<seq<KeyEntry>>, timeTakenSeconds: nat) returns (data: Summary)
      requires Valid() && timer.Valid()
      modifies this`testResultData, timer
      ensures Valid() && timer.Valid()
      ensures timer.State() == CancelStep(old(timer.State()))
      ensures data == Summarize(userResponses[..], answerKey, timeTakenSeconds)
      ensures testResultData == Some(data)
    {
      timer.Cancel();
      data := ScoreResponses(userResponses, answerKey, timeTakenSeconds);
      testResultData := Some(data);
    }

    /** The interval callback: tick, and submit the test when the tick says so. */
    method OnTimerTick(timer: Timer, answerKey: Option<seq<KeyEntry>>, timeTakenSeconds: nat) returns (result: Option<Summary>)
      requires Valid() && timer.Valid()
      modifies this`testResultData, timer
      ensures Valid() && timer.Valid()
      ensures timer.State() == TickStep(old(timer.State())).clock
      ensures result.Some? <==> TickStep(old(timer.State())).submits
      ensures result.Some? ==> result.value == Summarize(userResponses[..], answerKey, timeTakenSeconds)
      ensures testResultData == if result.Some? then result else old(testResultData)
    {
      var submits := timer.Tick();
      result := None;
      if submits {
        var data := SubmitTest(timer, answerKey, timeTakenSeconds);
        result := Some(data);
      }
    }

    /** downloadResultPDF: where each wrong-log line of the published result is placed. */
    method DownloadResultPdf() returns (lines: seq<ReportLayout.Line>)
      requires testResultData.Some?
      ensures |lines| == |testResultData.value.wrongLog|
      ensures forall k :: 0 <= k < |lines| ==>
        lines[k] == ReportLayout.Line(testResultData.value.wrongLog[k], ReportLayout.Slot(k).page, ReportLayout.Slot(k).y)
    {
      lines := ReportLayout.LayOut(testResultData.value.wrongLog);
    }
  }
}
