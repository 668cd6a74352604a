/** The first version of the progress queue: a plain list of question ids
    that is replaced wholesale and picked from at random. */
module LegacyProgressQueueLibrary {
  import opened Runtime

  type QuestionId = string

  class ProgressQueueRandom {
    var questions: seq<QuestionId>

    constructor ()
      ensures questions == []
    {
      questions := [];
    }

    /** Replaces the list with the given one. */
    method UpdateQuestions(newQuestions: seq<QuestionId>)
      modifies this
      ensures questions == newQuestions
    {
      questions := newQuestions;
    }

    /** Picks any member of the list, leaving the list as it is; an empty
        list raises `IndexError`. */
    method NextQuestion() returns (r: Outcome<QuestionId>)
      ensures questions == [] ==> r == Raised(IndexError)
      ensures questions != [] ==> r.Returned? && r.value in questions
    {
      if questions == [] {
        return Raised(IndexError);
      }
      var i :| 0 <= i < |questions|;
      r := Returned(questions[i]);
    }
  }
}
