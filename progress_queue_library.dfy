/** The bot's per-(user, channel) progress queue: a map from question id to
    an integer progress value, and the question the user was last asked.
    `ProgressQueueRandom` picks the next question uniformly among the known
    ids and does not track learning progress. */
module ProgressQueueLibrary {
  import opened Runtime

  type QuestionId = string

  /** The progress map after the ids in `questions` have been made known:
      every id is a key, the value of a known id is kept, and an id seen for
      the first time starts at 0. */
  function WithQuestions(progress: map<QuestionId, int>, questions: seq<QuestionId>): (r: map<QuestionId, int>)
    ensures r.Keys == progress.Keys + set q | q in questions
    ensures forall id :: id in progress ==> r[id] == progress[id]
    ensures forall id :: id in r && id !in progress ==> r[id] == 0
  {
    if questions == [] then progress
    else
      var init := questions[..|questions| - 1];
      var last := questions[|questions| - 1];
      assert questions == init + [last];
      var known := WithQuestions(progress, init);
      if last in known then known else known[last := 0]
  }

  /** Making the same ids known a second time changes nothing. */
  lemma WithQuestionsIdempotent(progress: map<QuestionId, int>, questions: seq<QuestionId>)
    ensures WithQuestions(WithQuestions(progress, questions), questions) == WithQuestions(progress, questions)
  {
  }

  class ProgressQueueRandom {
    var progress: map<QuestionId, int>
    var currentQuestionId: Option<QuestionId>

    /** A fresh queue knows no question and has asked none. */
    constructor ()
      ensures progress == map[] && currentQuestionId == None
    {
      progress := map[];
      currentQuestionId := None;
    }

    /** The progress map itself: every known question id with its value. */
    function GetProgress(): (r: map<QuestionId, int>)
      reads this
      ensures r == progress
    {
      progress
    }

    /** Replaces the progress map; the current question is not touched. */
    method SetProgress(newProgress: map<QuestionId, int>)
      modifies this
      ensures GetProgress() == newProgress
      ensures CurrentQuestion() == old(CurrentQuestion())
    {
      progress := newProgress;
    }

    /** Adds every id not yet known with progress 0, in list order. */
    method UpdateQuestions(questions: seq<QuestionId>)
      modifies this
      ensures progress == WithQuestions(old(progress), questions)
      ensures currentQuestionId == old(currentQuestionId)
    {
      for i := 0 to |questions|
        invariant progress == WithQuestions(old(progress), questions[..i])
        invariant currentQuestionId == old(currentQuestionId)
      {
        assert questions[..i + 1][..i] == questions[..i];
        if questions[i] !in progress {
          progress := progress[questions[i] := 0];
        }
      }
      assert questions[..|questions|] == questions;
    }

    /** Picks any known id and makes it the current question. With no id
        known, the pick raises `IndexError` before anything is recorded. */
    method NextQuestion() returns (r: Outcome<QuestionId>)
      modifies this
      ensures progress == old(progress)
      ensures old(progress) == map[] ==> r == Raised(IndexError) && currentQuestionId == old(currentQuestionId)
      ensures old(progress) != map[] ==> r.Returned? && r.value in progress && CurrentQuestion() == Some(r.value)
    {
      if progress == map[] {
        return Raised(IndexError);
      }
      var id :| id in progress;
      currentQuestionId := Some(id);
      r := Returned(id);
    }

    /** The question last picked, `None` before the first pick. */
    function CurrentQuestion(): (r: Option<QuestionId>)
      reads this
      ensures r == currentQuestionId
    {
      currentQuestionId
    }
  }
}
