/**
  The document store behind the session and question controllers: the two
  collections (sessions and questions) as maps from ids to records. Ids and
  creation times come from one logical clock owned by the store, so a document
  created later has both a larger id and a later `createdAt`.

  The store never hands out an id twice, so a reference that outlives the
  document it names (a session's question list after its questions are deleted)
  can never come to name another document.
 */
module DocumentStore {
  import opened JsValues

  type Id = nat

  /** The user id a session belongs to, compared as a string. */
  type UserId = string

  datatype Session = Session(
    user: UserId,
    role: JsValue,
    experience: JsValue,
    topicsToFocus: JsValue,
    description: JsValue,
    questions: seq<Id>,
    createdAt: nat)

  datatype Question = Question(
    session: Id,
    question: JsValue,
    answer: JsValue,
    note: JsValue,
    isPinned: bool,
    createdAt: nat)

  /** A question as `populate` returns it: the document together with its id. */
  datatype Populated = Populated(id: Id, doc: Question)

  /** A new question: not pinned and with an empty note. */
  function NewQuestion(session: Id, question: JsValue, answer: JsValue, now: nat): (q: Question)
    ensures q.session == session && q.question == question && q.answer == answer
    ensures !q.isPinned && q.note == Str("") && q.createdAt == now
  {
    Question(session, question, answer, Str(""), false, now)
  }

  /** The question collection went from `before` to `after` by adding one new
      question per element of `items`, in order, under the consecutive ids from
      `first`, each pointing at `session`; nothing else changed. */
  ghost predicate AddedQuestions(
    before: map<Id, Question>, after: map<Id, Question>, first: Id, session: Id, items: seq<JsValue>)
  {
    Kept(before, after) && OnlyFrom(before, after, first, |items|) && MadeFrom(after, first, session, items)
  }

  /** Every question of `before` is in `after`, unchanged. */
  ghost predicate Kept(before: map<Id, Question>, after: map<Id, Question>) {
    forall q :: q in before ==> q in after && after[q] == before[q]
  }

  /** Every question of `after` was in `before` or has one of the `n` ids from `first`. */
  ghost predicate OnlyFrom(before: map<Id, Question>, after: map<Id, Question>, first: Id, n: nat) {
    forall q :: q in after ==> q in before || first <= q < first + n
  }

  /** The ids from `first` hold the questions made from `items`, in order. */
  ghost predicate MadeFrom(after: map<Id, Question>, first: Id, session: Id, items: seq<JsValue>) {
    forall q :: first <= q < first + |items| ==> q in after && after[q] == MadeAt(session, items, first, q)
  }

  /** The question `Question.create` makes, under id `q`, from the element of `items`
      that the consecutive ids from `first` assign to `q`. */
  function MadeAt(session: Id, items: seq<JsValue>, first: Id, q: Id): Question
    requires first <= q < first + |items|
  {
    NewQuestion(session, Member(items[q - first], "question"), Member(items[q - first], "answer"), q)
  }

  /** The facts `CreateQuestionDocs` promises about the ids it returns amount to
      `AddedQuestions`. */
  lemma AddedUnderIds(
    before: map<Id, Question>, after: map<Id, Question>, first: Id, session: Id,
    items: seq<JsValue>, ids: seq<Id>)
    requires |ids| == |items| && forall k :: 0 <= k < |ids| ==> ids[k] == first + k
    requires forall k :: 0 <= k < |ids| ==>
               ids[k] in after
               && after[ids[k]] == NewQuestion(session, Member(items[k], "question"), Member(items[k], "answer"), ids[k])
    requires forall q :: q in before ==> q in after && after[q] == before[q]
    requires forall q :: q in after ==> q in before || q in ids
    ensures AddedQuestions(before, after, first, session, items)
  {
    assert Kept(before, after);
    forall q | q in after
      ensures q in before || first <= q < first + |items|
    {
      if q !in before {
        var k :| 0 <= k < |ids| && ids[k] == q;
      }
    }
    assert OnlyFrom(before, after, first, |items|);
    forall q | first <= q < first + |items|
      ensures q in after && after[q] == MadeAt(session, items, first, q)
    {
      assert ids[q - first] == q;
    }
    assert MadeFrom(after, first, session, items);
  }

  /** A list of the consecutive ids from `first`, one per element, names exactly the
      added questions: each is new, is the question made from its element, and no
      other question was added. */
  lemma ListedAdded(
    before: map<Id, Question>, after: map<Id, Question>, first: Id, session: Id,
    items: seq<JsValue>, list: seq<Id>)
    requires AddedQuestions(before, after, first, session, items)
    requires forall q :: q in before ==> q < first
    requires |list| == |items| && forall k :: 0 <= k < |list| ==> list[k] == first + k
    ensures forall a, b :: 0 <= a < b < |list| ==> list[a] < list[b]
    ensures forall k :: 0 <= k < |list| ==>
              list[k] !in before && list[k] in after
              && after[list[k]]
                 == NewQuestion(session, Member(items[k], "question"), Member(items[k], "answer"), list[k])
    ensures forall q :: q in after ==> q in before || q in list
  {
    forall k | 0 <= k < |list|
      ensures list[k] !in before && list[k] in after
      ensures after[list[k]]
              == NewQuestion(session, Member(items[k], "question"), Member(items[k], "answer"), list[k])
    {
      var q := list[k];
      assert first <= q < first + |items| && q - first == k;
      assert after[q] == MadeAt(session, items, first, q);
    }
    forall q | q in after && q !in before
      ensures q in list
    {
      assert list[q - first] == q;
    }
  }

  class Store {
    var sessions: map<Id, Session>
    var questions: map<Id, Question>
    /** The logical clock: the next id to issue and the current time. */
    var clock: nat

    /** Every id was issued before now and carries its own creation time; a
        session's list points only at questions of that session (or at deleted
        ones); no question outlives its session. */
    ghost predicate Valid()
      reads this
    {
      (forall s :: s in sessions ==>
         s < clock && sessions[s].createdAt == s
         && forall i :: 0 <= i < |sessions[s].questions| ==>
              var q := sessions[s].questions[i];
              q < clock && (q in questions ==> questions[q].session == s))
      && (forall q :: q in questions ==>
            q < clock && questions[q].createdAt == q && questions[q].session in sessions)
    }

    constructor ()
      ensures Valid()
      ensures sessions == map[] && questions == map[] && clock == 0
    {
      sessions := map[];
      questions := map[];
      clock := 0;
    }

    /** `Session.create`: a new session with an empty question list. */
    method CreateSessionDoc(
      user: UserId, role: JsValue, experience: JsValue, topicsToFocus: JsValue, description: JsValue)
      returns (id: Id)
      requires Valid()
      modifies this
      ensures Valid()
      ensures id == old(clock) && id !in old(sessions) && clock == old(clock) + 1
      ensures sessions == old(sessions)[id := Session(user, role, experience, topicsToFocus, description, [], id)]
      ensures questions == old(questions)
    {
      id := clock;
      sessions := sessions[id := Session(user, role, experience, topicsToFocus, description, [], id)];
      clock := clock + 1;
    }

    /** Ids already in this store's question collection, in the given order. */
    function Populate(ids: seq<Id>): (r: seq<Populated>)
      reads this
      ensures |r| <= |ids|
      ensures forall k :: 0 <= k < |r| ==> r[k].id in ids
      ensures forall k :: 0 <= k < |r| ==> r[k].id in questions && r[k].doc == questions[r[k].id]
      ensures (forall k :: 0 <= k < |ids| ==> ids[k] in questions) ==>
                |r| == |ids| && forall k :: 0 <= k < |r| ==> r[k].id == ids[k]
    {
      if |ids| == 0 then []
      else
        var rest := Populate(ids[1..]);
        assert forall k :: 1 <= k < |ids| ==> ids[k] == ids[1..][k - 1];
        if ids[0] in questions then [Populated(ids[0], questions[ids[0]])] + rest else rest
    }

    /** `populate` keeps the listed ids that exist in list order: it distributes over
        concatenation, so the result for a list is the results for its entries, one
        after another; an entry contributes its question when it exists and nothing
        otherwise (`PopulateOne`). */
    lemma {:induction false} PopulateAppend(a: seq<Id>, b: seq<Id>)
      ensures Populate(a + b) == Populate(a) + Populate(b)
    {
      if |a| > 0 {
        assert (a + b)[1..] == a[1..] + b;
        PopulateAppend(a[1..], b);
      } else {
        assert a + b == b;
      }
    }

    /** Every listed id that exists comes back, with its document. */
    lemma {:induction false} PopulateKeepsExisting(ids: seq<Id>)
      ensures forall k :: 0 <= k < |ids| && ids[k] in questions ==>
                Populated(ids[k], questions[ids[k]]) in Populate(ids)
    {
      if |ids| > 0 {
        PopulateKeepsExisting(ids[1..]);
        assert forall k :: 1 <= k < |ids| ==> ids[k] == ids[1..][k - 1];
      }
    }

    /** A single entry: its question when it exists, nothing when it was deleted. */
    lemma PopulateOne(id: Id)
      ensures Populate([id]) == if id in questions then [Populated(id, questions[id])] else []
    {
      assert [id][1..] == [];
    }

    /** `Question.create` for each element in turn: one new question per element, in
        order, each pointing at `session`, carrying the element's `question` and
        `answer` properties and taking the next id the clock issues. */
    method CreateQuestionDocs(session: Id, items: seq<JsValue>) returns (ids: seq<Id>)
      requires Valid() && session in sessions
      modifies this
      ensures Valid()
      ensures sessions == old(sessions) && clock == old(clock) + |items|
      ensures |ids| == |items|
      ensures forall k :: 0 <= k < |ids| ==> ids[k] == old(clock) + k
      ensures forall a, b :: 0 <= a < b < |ids| ==> ids[a] < ids[b]
      ensures forall k :: 0 <= k < |ids| ==>
                ids[k] in questions
                && questions[ids[k]] == NewQuestion(session, Member(items[k], "question"), Member(items[k], "answer"), ids[k])
      ensures forall q :: q in old(questions) ==> q in questions && questions[q] == old(questions)[q]
      ensures forall q :: q in questions ==> q in old(questions) || q in ids
    {
      ids := [];
      var i := 0;
      while i < |items|
        invariant 0 <= i <= |items| && |ids| == i
        invariant sessions == old(sessions) && clock == old(clock) + i
        invariant forall k :: 0 <= k < i ==> ids[k] == old(clock) + k
        invariant forall k :: 0 <= k < i ==>
                    ids[k] in questions
                    && questions[ids[k]] == NewQuestion(session, Member(items[k], "question"), Member(items[k], "answer"), ids[k])
        invariant forall q :: q in old(questions) ==> q in questions && questions[q] == old(questions)[q]
        invariant forall q :: q in questions ==> q in old(questions) || old(clock) <= q < clock
      {
        var id := clock;
        questions := questions[id := NewQuestion(session, Member(items[i], "question"), Member(items[i], "answer"), id)];
        clock := clock + 1;
        ids := ids + [id];
        i := i + 1;
      }
      forall q | q in questions && q !in old(questions)
        ensures q in ids && questions[q].session == session && questions[q].createdAt == q
      {
        assert ids[q - old(clock)] == q;
      }
    }

    /** Replaces a session's question list and saves the session. The list may name
        only questions issued so far, and those that exist must belong to the session. */
    method SetQuestionList(session: Id, list: seq<Id>)
      requires Valid() && session in sessions
      requires forall k :: 0 <= k < |list| ==>
                 list[k] < clock && (list[k] in questions ==> questions[list[k]].session == session)
      modifies this
      ensures Valid()
      ensures sessions == old(sessions)[session := old(sessions)[session].(questions := list)]
      ensures questions == old(questions) && clock == old(clock)
    {
      sessions := sessions[session := sessions[session].(questions := list)];
    }

    /** `Question.deleteMany({ session })`: every question of the session goes. */
    method DeleteQuestionsOf(session: Id)
      requires Valid()
      modifies this
      ensures Valid()
      ensures questions == map q | q in old(questions) && old(questions)[q].session != session :: old(questions)[q]
      ensures sessions == old(sessions) && clock == old(clock)
    {
      questions := map q | q in questions && questions[q].session != session :: questions[q];
    }

    /** `session.deleteOne()`. Only a session without questions can go: removing it
        while a question still points at it would leave that question orphaned. */
    method DeleteSessionDoc(session: Id)
      requires Valid()
      requires forall q :: q in questions ==> questions[q].session != session
      modifies this
      ensures Valid()
      ensures sessions == old(sessions) - {session}
      ensures questions == old(questions) && clock == old(clock)
    {
      sessions := sessions - {session};
    }

    /** Saves a changed question; its session and creation time stay as they were. */
    method SaveQuestion(id: Id, q: Question)
      requires Valid() && id in questions
      requires q.session == questions[id].session && q.createdAt == questions[id].createdAt
      modifies this
      ensures Valid()
      ensures questions == old(questions)[id := q]
      ensures sessions == old(sessions) && clock == old(clock)
    {
      questions := questions[id := q];
    }
  }
}
