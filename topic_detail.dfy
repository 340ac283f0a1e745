/** The state of the topic page: the list of questions it shows and the one
    question whose answer is expanded. Every change to the list happens
    after a request to the server has finished; the request's outcome and
    the user's answer to the confirmation dialog are inputs here. */
module TopicDetail {
  import opened QuestionList

  /** How a request to the server ended: with the response body, or with
      any error (network, authorization or server side). */
  datatype Response<T> = Success(data: T) | Failure

  datatype Option<T> = None | Some(value: T)

  /** The expanded id after the header of the question `clicked` is
      clicked: the open question closes, any other question opens. */
  function Toggle(expanded: Option<Id>, clicked: Id): (r: Option<Id>)
    ensures r == None <==> expanded == Some(clicked)
    ensures r != None ==> r == Some(clicked)
  {
    if expanded == Some(clicked) then None else Some(clicked)
  }

  /** Clicking the same header twice restores the prior state when nothing
      or that very question was open; when another question was open, it
      leaves everything collapsed. */
  lemma ToggleTwice(expanded: Option<Id>, clicked: Id)
    ensures Toggle(Toggle(expanded, clicked), clicked) ==
      if expanded == Some(clicked) then expanded else None
    ensures expanded == None || expanded == Some(clicked) ==>
      Toggle(Toggle(expanded, clicked), clicked) == expanded
  {
  }

  /** The number of rows shown expanded: every row whose id equals the
      expanded id. */
  function ExpandedCount(qs: seq<Question>, expanded: Option<Id>): (n: nat)
  {
    match expanded
    case None => 0
    case Some(x) => CountId(qs, x)
  }

  /** With unique ids at most one row is shown expanded. */
  lemma {:induction false} AtMostOneExpanded(qs: seq<Question>, expanded: Option<Id>)
    requires UniqueIds(qs)
    ensures ExpandedCount(qs, expanded) <= 1
  {
    if expanded.Some? {
      UniqueIdsAtMostOnce(qs, expanded.value);
    }
  }

  /** The topic page's state. */
  class TopicPage {
    var questions: seq<Question>
    var expandedId: Option<Id>

    /** The page starts with no questions and nothing expanded. */
    constructor ()
      ensures questions == [] && expandedId == None
    {
      questions := [];
      expandedId := None;
    }

    /** The list fetched for the topic replaces the shown list wholesale;
        a failed fetch keeps the previous list. */
    method LoadQuestions(response: Response<seq<Question>>)
      modifies this`questions
      ensures questions == if response.Success? then response.data else old(questions)
    {
      if response.Success? {
        questions := response.data;
      }
    }

    /** Creating a question reloads the list once the creation succeeded;
        a failed creation leaves the list as it was. */
    method HandleSubmit(created: Response<()>, reload: Response<seq<Question>>)
      modifies this`questions
      ensures questions ==
        if created.Success? && reload.Success? then reload.data else old(questions)
    {
      if created.Success? {
        LoadQuestions(reload);
      }
    }

    /** A successful revise of `qid` bumps that question's count; a failed
        one changes nothing. The expanded question is untouched. */
    method HandleRevision(qid: Id, response: Response<()>)
      modifies this`questions
      ensures questions == if response.Success? then Revise(old(questions), qid) else old(questions)
      ensures CountsNonNegative(old(questions)) ==> CountsNonNegative(questions)
      ensures UniqueIds(old(questions)) ==> UniqueIds(questions)
      ensures TotalRevisions(questions) ==
        TotalRevisions(old(questions)) + if response.Success? then CountId(old(questions), qid) else 0
    {
      if response.Success? {
        if CountsNonNegative(questions) {
          ReviseKeepsCountsNonNegative(questions, qid);
        }
        ReviseTotal(questions, qid);
        if UniqueIds(questions) {
          ReviseKeepsUniqueIds(questions, qid);
        }
        questions := Revise(questions, qid);
      }
    }

    /** A confirmed and successful delete of `qid` drops that question; a
        declined confirmation or a failed request changes nothing. */
    method HandleDelete(qid: Id, confirmed: bool, response: Response<()>)
      modifies this`questions
      ensures questions ==
        if confirmed && response.Success? then Delete(old(questions), qid) else old(questions)
      ensures confirmed && response.Success? ==> CountId(questions, qid) == 0
      ensures |questions| <= |old(questions)|
      ensures CountsNonNegative(old(questions)) ==> CountsNonNegative(questions)
      ensures UniqueIds(old(questions)) ==> UniqueIds(questions)
    {
      if !confirmed {
        return;
      }
      if response.Success? {
        DeleteRemovesId(questions, qid);
        if CountsNonNegative(questions) {
          DeleteKeepsCountsNonNegative(questions, qid);
        }
        if UniqueIds(questions) {
          DeleteKeepsUniqueIds(questions, qid);
        }
        questions := Delete(questions, qid);
      }
    }

    /** A click on the header of question `clicked` opens or closes it. */
    method ToggleExpanded(clicked: Id)
      modifies this`expandedId
      ensures expandedId == Toggle(old(expandedId), clicked)
      ensures expandedId == None || expandedId == Some(clicked)
    {
      expandedId := Toggle(expandedId, clicked);
    }
  }
}
