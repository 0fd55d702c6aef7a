/**
  The session endpoints (backend/controllers/sessionController.js) over the
  store: create a session with its questions, list the caller's sessions,
  read one session with its questions in display order, and delete a session
  together with its questions.
 */
module SessionController {
  import opened Wrappers
  import opened JsValues
  import opened DocumentStore

  // ---------------------------------------------------------------------------
  // Display order of a session's questions: `sort: { isPinned: -1, createdAt: 1 }`

  /** `x` may come before `y`: pinned before unpinned, then older before newer. */
  predicate Precedes(x: Populated, y: Populated) {
    (x.doc.isPinned && !y.doc.isPinned)
    || (x.doc.isPinned == y.doc.isPinned && x.doc.createdAt <= y.doc.createdAt)
  }

  /** Every element may come before every later one. */
  predicate InDisplayOrder(s: seq<Populated>) {
    forall a, b :: 0 <= a < b < |s| ==> Precedes(s[a], s[b])
  }

  /** Places `x` before the first element it may precede. */
  function Insert(x: Populated, s: seq<Populated>): (r: seq<Populated>)
    ensures multiset(r) == multiset(s) + multiset{x}
  {
    if |s| == 0 || Precedes(x, s[0]) then [x] + s
    else
      assert s == [s[0]] + s[1..];
      [s[0]] + Insert(x, s[1..])
  }

  /** The order the store returns a session's questions in. */
  function Arrange(s: seq<Populated>): (r: seq<Populated>)
    ensures multiset(r) == multiset(s)
  {
    if |s| == 0 then []
    else
      assert s == [s[0]] + s[1..];
      Insert(s[0], Arrange(s[1..]))
  }

  lemma {:induction false} InsertKeepsOrder(x: Populated, s: seq<Populated>)
    requires InDisplayOrder(s)
    ensures InDisplayOrder(Insert(x, s))
  {
    if |s| == 0 || Precedes(x, s[0]) {
      var r := [x] + s;
      forall a, b | 0 <= a < b < |r|
        ensures Precedes(r[a], r[b])
      {
        if a > 0 {
          assert r[a] == s[a - 1] && r[b] == s[b - 1];
        } else {
          assert Precedes(s[0], s[b - 1]) || b == 1;
        }
      }
    } else {
      var t := Insert(x, s[1..]);
      InsertKeepsOrder(x, s[1..]);
      var r := [s[0]] + t;
      forall a, b | 0 <= a < b < |r|
        ensures Precedes(r[a], r[b])
      {
        if a > 0 {
          assert r[a] == t[a - 1] && r[b] == t[b - 1];
        } else {
          // s[0] precedes x (the order is total) and every later element of s
          assert r[b] in multiset(t);
          assert r[b] == x || r[b] in multiset(s[1..]);
          if r[b] != x {
            var j :| 0 <= j < |s[1..]| && s[1..][j] == r[b];
            assert s[j + 1] == r[b];
          }
        }
      }
    }
  }

  /** The arranged questions are a reordering of the given ones with every pinned
      question first and each group oldest first. */
  lemma {:induction false} ArrangeInDisplayOrder(s: seq<Populated>)
    ensures InDisplayOrder(Arrange(s))
  {
    if |s| > 0 {
      ArrangeInDisplayOrder(s[1..]);
      InsertKeepsOrder(s[0], Arrange(s[1..]));
    }
  }

  /** What display order means for pins and creation times. */
  lemma DisplayOrderMeans(s: seq<Populated>)
    requires InDisplayOrder(s)
    ensures forall a, b :: 0 <= a < b < |s| && s[b].doc.isPinned ==> s[a].doc.isPinned
    ensures forall a, b :: 0 <= a < b < |s| && s[a].doc.isPinned == s[b].doc.isPinned ==>
              s[a].doc.createdAt <= s[b].doc.createdAt
  {
    forall a, b | 0 <= a < b < |s|
      ensures Precedes(s[a], s[b])
    {
    }
  }

  // ---------------------------------------------------------------------------
  // Handlers

  datatype CreateReply = Created(session: Id) | ServerError

  /** The elements of `items` other than undefined and null, in order. */
  function NonNullish(items: seq<JsValue>): (r: seq<JsValue>)
    ensures |r| <= |items|
    ensures forall k :: 0 <= k < |r| ==> !Nullish(r[k])
    ensures (forall k :: 0 <= k < |items| ==> !Nullish(items[k])) ==> r == items
  {
    if |items| == 0 then []
    else
      var rest := NonNullish(items[1..]);
      assert forall k :: 1 <= k < |items| ==> !Nullish(items[k]) ==> !Nullish(items[1..][k - 1]);
      if Nullish(items[0]) then rest else [items[0]] + rest
  }

  /** The filter keeps exactly the elements that are neither undefined nor null. */
  lemma {:induction false} NonNullishMembers(items: seq<JsValue>)
    ensures forall k :: 0 <= k < |NonNullish(items)| ==> NonNullish(items)[k] in items
    ensures forall k :: 0 <= k < |items| && !Nullish(items[k]) ==> items[k] in NonNullish(items)
  {
    if |items| > 0 {
      NonNullishMembers(items[1..]);
      assert forall k :: 1 <= k < |items| ==> items[k] == items[1..][k - 1];
    }
  }

  /** The filter keeps order: it distributes over concatenation, so the result for a
      list is the results for its elements, one after another. */
  lemma {:induction false} NonNullishAppend(a: seq<JsValue>, b: seq<JsValue>)
    ensures NonNullish(a + b) == NonNullish(a) + NonNullish(b)
  {
    if |a| > 0 {
      assert (a + b)[1..] == a[1..] + b;
      NonNullishAppend(a[1..], b);
    } else {
      assert a + b == b;
    }
  }

  /** The elements of the request's `questions` whose `Question.create` starts: none
      when `questions.map` throws, otherwise every element but undefined and null. */
  function Started(questions: JsValue): (r: seq<JsValue>)
    ensures !questions.Arr? ==> r == []
    ensures questions.Arr? ==> r == NonNullish(questions.items)
  {
    if questions.Arr? then NonNullish(questions.items) else []
  }

  /** No element of `questions` is undefined or null: every `q.question` succeeds. */
  predicate AllPresent(questions: JsValue) {
    questions.Arr? && forall k :: 0 <= k < |questions.items| ==> !Nullish(questions.items[k])
  }

  /** `createSession`. The session is created first; `questions.map` then throws when
      `questions` is not an array, and each `q.question` throws for an undefined or
      null element. In the second case the other elements still produce their
      questions (their creations are already under way when `Promise.all` rejects),
      but the session's list is never assigned. Either way the reply is 500 and the
      new session stays, with an empty list. */
  method CreateSession(
    db: Store, user: UserId,
    role: JsValue, experience: JsValue, topicsToFocus: JsValue, description: JsValue, questions: JsValue)
    returns (reply: CreateReply)
    requires db.Valid()
    modifies db
    ensures db.Valid()
    ensures old(db.clock) !in old(db.sessions) && old(db.clock) in db.sessions
    ensures db.sessions[old(db.clock)].(questions := [])
            == Session(user, role, experience, topicsToFocus, description, [], old(db.clock))
    ensures db.sessions == old(db.sessions)[old(db.clock) := db.sessions[old(db.clock)]]
    ensures AddedQuestions(old(db.questions), db.questions, old(db.clock) + 1, old(db.clock), Started(questions))
    ensures reply.Created? <==> AllPresent(questions)
    ensures reply.Created? ==> reply.session == old(db.clock)
    ensures reply.ServerError? ==> db.sessions[old(db.clock)].questions == []
    ensures reply.Created? ==>
              var list := db.sessions[reply.session].questions;
              |list| == |questions.items| && forall k :: 0 <= k < |list| ==> list[k] == old(db.clock) + 1 + k
  {
    var sid := db.CreateSessionDoc(user, role, experience, topicsToFocus, description);
    if !questions.Arr? {
      AddedUnderIds(db.questions, db.questions, db.clock, sid, [], []);
      return ServerError;
    }
    var ids := StartQuestions(db, sid, questions.items);
    if AllPresent(questions) {
      db.SetQuestionList(sid, ids);
      reply := Created(sid);
    } else {
      reply := ServerError;
    }
  }

  /** `Question.create` for every element that is neither undefined nor null, in
      order, under the next ids the clock issues. */
  method StartQuestions(db: Store, sid: Id, items: seq<JsValue>) returns (ids: seq<Id>)
    requires db.Valid() && sid in db.sessions
    modifies db
    ensures db.Valid()
    ensures db.sessions == old(db.sessions)
    ensures AddedQuestions(old(db.questions), db.questions, old(db.clock), sid, NonNullish(items))
    ensures |ids| == |NonNullish(items)| && forall k :: 0 <= k < |ids| ==> ids[k] == old(db.clock) + k
    ensures db.clock == old(db.clock) + |ids|
    ensures forall k :: 0 <= k < |ids| ==> ids[k] in db.questions && db.questions[ids[k]].session == sid
  {
    ids := db.CreateQuestionDocs(sid, NonNullish(items));
    AddedUnderIds(old(db.questions), db.questions, old(db.clock), sid, NonNullish(items), ids);
  }

  /** A session as the listing returns it: its questions populated in list order. */
  datatype SessionView = SessionView(id: Id, session: Session, questions: seq<Populated>)

  /** `getMySession`: the caller's sessions, newest first. */
  method GetMySessions(db: Store, user: UserId) returns (r: seq<SessionView>)
    requires db.Valid()
    ensures forall k :: 0 <= k < |r| ==>
              r[k].id in db.sessions && r[k].session == db.sessions[r[k].id] && r[k].session.user == user
              && r[k].questions == db.Populate(r[k].session.questions)
    ensures forall s :: s in db.sessions && db.sessions[s].user == user ==>
              exists k :: 0 <= k < |r| && r[k].id == s
    ensures forall a, b :: 0 <= a < b < |r| ==> r[a].session.createdAt > r[b].session.createdAt
  {
    var ids := FindNewestFirst(db, user);
    // populate('questions')
    r := seq(|ids|, k requires 0 <= k < |ids| && ids[k] in db.sessions reads db =>
               SessionView(ids[k], db.sessions[ids[k]], db.Populate(db.sessions[ids[k]].questions)));
    forall s | s in db.sessions && db.sessions[s].user == user
      ensures exists k :: 0 <= k < |r| && r[k].id == s
    {
      var k :| 0 <= k < |ids| && ids[k] == s;
      assert r[k].id == s;
    }
  }

  /** `find({ user }).sort({ createdAt: -1 })`: the ids of the caller's sessions,
      newest first. Creation times are ids, so the ids are walked downwards. */
  method FindNewestFirst(db: Store, user: UserId) returns (ids: seq<Id>)
    requires db.Valid()
    ensures forall k :: 0 <= k < |ids| ==> ids[k] in db.sessions && db.sessions[ids[k]].user == user
    ensures forall s :: s in db.sessions && db.sessions[s].user == user ==> s in ids
    ensures forall a, b :: 0 <= a < b < |ids| ==>
              db.sessions[ids[a]].createdAt > db.sessions[ids[b]].createdAt
  {
    ids := [];
    var i := db.clock;
    while i > 0
      invariant 0 <= i <= db.clock
      invariant forall k :: 0 <= k < |ids| ==> i <= ids[k] && ids[k] in db.sessions && db.sessions[ids[k]].user == user
      invariant forall s :: i <= s && s in db.sessions && db.sessions[s].user == user ==> s in ids
      invariant forall a, b :: 0 <= a < b < |ids| ==> ids[a] > ids[b]
    {
      i := i - 1;
      if i in db.sessions && db.sessions[i].user == user {
        ids := ids + [i];
      }
    }
  }

  /** A session as the detail endpoint returns it. */
  datatype SessionDetail = SessionDetail(session: Session, questions: seq<Populated>)

  /** `getSessionById`: 404 (None) for an unknown id; any caller may read any
      session. Its questions come populated, pinned ones first and each group
      oldest first. */
  method GetSessionById(db: Store, id: Id) returns (r: Option<SessionDetail>)
    ensures r.None? <==> id !in db.sessions
    ensures r.Some? ==> r.value.session == db.sessions[id]
    ensures r.Some? ==>
              var qs := r.value.questions;
              multiset(qs) == multiset(db.Populate(db.sessions[id].questions))
              && (forall a, b :: 0 <= a < b < |qs| && qs[b].doc.isPinned ==> qs[a].doc.isPinned)
              && (forall a, b :: 0 <= a < b < |qs| && qs[a].doc.isPinned == qs[b].doc.isPinned ==>
                    qs[a].doc.createdAt <= qs[b].doc.createdAt)
  {
    if id !in db.sessions {
      return None;
    }
    var session := db.sessions[id];
    var qs := Arrange(db.Populate(session.questions));
    ArrangeInDisplayOrder(db.Populate(session.questions));
    DisplayOrderMeans(qs);
    r := Some(SessionDetail(session, qs));
  }

  datatype DeleteReply = NotFound | Unauthorized | Deleted

  /** `deleteSession`: 404 for an unknown id, 401 when the session belongs to
      someone else (both leaving the store as it was), otherwise the session's
      questions and then the session itself are deleted. */
  method DeleteSession(db: Store, id: Id, user: UserId) returns (reply: DeleteReply)
    requires db.Valid()
    modifies db
    ensures db.Valid()
    ensures reply == NotFound <==> id !in old(db.sessions)
    ensures reply == Unauthorized <==> id in old(db.sessions) && old(db.sessions)[id].user != user
    ensures !reply.Deleted? ==>
              db.sessions == old(db.sessions) && db.questions == old(db.questions) && db.clock == old(db.clock)
    ensures reply.Deleted? ==>
              db.sessions == old(db.sessions) - {id}
              && db.questions == (map q | q in old(db.questions) && old(db.questions)[q].session != id
                                    :: old(db.questions)[q])
              && db.clock == old(db.clock)
    ensures reply.Deleted? ==> forall q :: q in db.questions ==> db.questions[q].session != id
  {
    if id !in db.sessions {
      return NotFound;
    }
    if db.sessions[id].user != user {
      return Unauthorized;
    }
    db.DeleteQuestionsOf(id);
    db.DeleteSessionDoc(id);
    reply := Deleted;
  }
}
