/**
  The question endpoints (backend/controllers/questionController.js) over the
  store: append generated questions to a session, flip a question's pin, and
  replace its note. None of them checks who owns the session.
 */
module QuestionController {
  import opened Wrappers
  import opened JsValues
  import opened DocumentStore

  datatype AddReply = InvalidInput | SessionNotFound | ServerError | Added(ids: seq<Id>)

  /** `addQuestionsToSession`. A missing session id (`sessionId` is None) or a
      non-array `questions` is a 400 and an unknown session a 404. Building the
      documents reads `q.question` for every element before anything is inserted,
      so an undefined or null element is a 500 with nothing written. Otherwise one
      question per element is inserted and the new ids go to the end of the
      session's list. */
  method AddQuestionsToSession(db: Store, sessionId: Option<Id>, questions: JsValue) returns (reply: AddReply)
    requires db.Valid()
    modifies db
    ensures db.Valid()
    ensures reply.InvalidInput? <==> sessionId.None? || !questions.Arr?
    ensures reply.SessionNotFound? <==> sessionId.Some? && questions.Arr? && sessionId.value !in old(db.sessions)
    ensures reply.ServerError? <==>
              sessionId.Some? && questions.Arr? && sessionId.value in old(db.sessions)
              && exists k :: 0 <= k < |questions.items| && Nullish(questions.items[k])
    ensures !reply.Added? ==>
              db.sessions == old(db.sessions) && db.questions == old(db.questions) && db.clock == old(db.clock)
    ensures reply.Added? ==>
              var sid := sessionId.value;
              var ids := reply.ids;
              |ids| == |questions.items|
              && db.sessions == old(db.sessions)[sid := old(db.sessions)[sid].(questions := old(db.sessions)[sid].questions + ids)]
              && (forall a, b :: 0 <= a < b < |ids| ==> ids[a] < ids[b])
              && (forall k :: 0 <= k < |ids| ==>
                    ids[k] !in old(db.questions) && ids[k] in db.questions
                    && db.questions[ids[k]]
                       == NewQuestion(sid, Member(questions.items[k], "question"), Member(questions.items[k], "answer"), ids[k]))
              && (forall q :: q in old(db.questions) ==> q in db.questions && db.questions[q] == old(db.questions)[q])
              && (forall q :: q in db.questions ==> q in old(db.questions) || q in ids)
  {
    if sessionId.None? || !questions.Arr? {
      return InvalidInput;
    }
    var sid := sessionId.value;
    if sid !in db.sessions {
      return SessionNotFound;
    }
    var items := questions.items;
    if exists k :: 0 <= k < |items| && Nullish(items[k]) {
      return ServerError;
    }
    var ids := db.CreateQuestionDocs(sid, items);
    db.SetQuestionList(sid, db.sessions[sid].questions + ids);
    reply := Added(ids);
  }

  datatype QuestionReply = QuestionNotFound | Saved(question: Question)

  /** `togglePinQuestion`: 404 for an unknown id, otherwise `isPinned` flips and
      nothing else changes. */
  method TogglePinQuestion(db: Store, id: Id) returns (reply: QuestionReply)
    requires db.Valid()
    modifies db
    ensures db.Valid()
    ensures reply.QuestionNotFound? <==> id !in old(db.questions)
    ensures db.sessions == old(db.sessions) && db.clock == old(db.clock)
    ensures reply.QuestionNotFound? ==> db.questions == old(db.questions)
    ensures reply.Saved? ==>
              reply.question == old(db.questions)[id].(isPinned := !old(db.questions)[id].isPinned)
              && db.questions == old(db.questions)[id := reply.question]
  {
    if id !in db.questions {
      return QuestionNotFound;
    }
    var q := db.questions[id];
    q := q.(isPinned := !q.isPinned);
    db.SaveQuestion(id, q);
    reply := Saved(q);
  }

  /** Pinning twice puts every question back as it was. */
  method TogglePinTwice(db: Store, id: Id)
    requires db.Valid()
    modifies db
    ensures db.Valid()
    ensures db.sessions == old(db.sessions) && db.questions == old(db.questions) && db.clock == old(db.clock)
  {
    var first := TogglePinQuestion(db, id);
    var second := TogglePinQuestion(db, id);
  }

  /** `note || ""`: the note to store for a request's `note`. */
  function StoredNote(note: JsValue): (r: JsValue)
    ensures Truthy(r) || r == Str("")
    ensures Truthy(note) ==> r == note
    ensures !Truthy(note) ==> r == Str("")
  {
    Or(note, Str(""))
  }

  /** `updateQuestionNote`: 404 for an unknown id, otherwise the note becomes the
      request's note, or "" when that is undefined, null or empty; nothing else
      changes. */
  method UpdateQuestionNote(db: Store, id: Id, note: JsValue) returns (reply: QuestionReply)
    requires db.Valid()
    modifies db
    ensures db.Valid()
    ensures reply.QuestionNotFound? <==> id !in old(db.questions)
    ensures db.sessions == old(db.sessions) && db.clock == old(db.clock)
    ensures reply.QuestionNotFound? ==> db.questions == old(db.questions)
    ensures reply.Saved? ==>
              reply.question == old(db.questions)[id].(note := StoredNote(note))
              && db.questions == old(db.questions)[id := reply.question]
  {
    if id !in db.questions {
      return QuestionNotFound;
    }
    var q := db.questions[id];
    q := q.(note := StoredNote(note));
    db.SaveQuestion(id, q);
    reply := Saved(q);
  }
}
