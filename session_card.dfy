/**
  What a session card on the dashboard shows
  (frontend/.../components/session/SessionCard.jsx): the role's colour, the
  topic chips with their "+N" overflow, and the texts with their fallbacks.
 */
module SessionCard {
  import opened Wrappers
  import opened Text
  import opened JsValues

  const Blue := "#3b82f6"
  const Indigo := "#6366f1"
  const Emerald := "#10b981"
  const Rose := "#f43f5e"
  const Orange := "#f97316"
  const Yellow := "#facc15"

  /** `getRoleColor(role)`, for a string role or none (undefined or null). */
  function GetRoleColor(role: Option<string>): (c: string)
    ensures c == Blue <==> role.Some? && Lower(role.value) == "frontend"
    ensures c == Indigo <==> role.Some? && Lower(role.value) == "backend"
    ensures c == Emerald <==> role.Some? && Lower(role.value) == "fullstack"
    ensures c == Rose <==> role.Some? && Lower(role.value) == "data scientist"
    ensures c == Orange <==> role.Some? && Lower(role.value) == "java developer"
    ensures c == Yellow <==>
              role.None? || Lower(role.value) !in {"frontend", "backend", "fullstack", "data scientist", "java developer"}
  {
    if role.None? then Yellow
    else
      var r := Lower(role.value);
      if r == "frontend" then Blue
      else if r == "backend" then Indigo
      else if r == "fullstack" then Emerald
      else if r == "data scientist" then Rose
      else if r == "java developer" then Orange
      else Yellow
  }

  lemma {:induction false} LowerIdempotent(s: string)
    ensures Lower(Lower(s)) == Lower(s)
  {
    if |s| > 0 {
      LowerIdempotent(s[1..]);
      assert Lower(s)[1..] == Lower(s[1..]);
    }
  }

  /** The colour ignores letter case. */
  lemma RoleColorIgnoresCase(role: string)
    ensures GetRoleColor(Some(role)) == GetRoleColor(Some(Lower(role)))
  {
    LowerIdempotent(role);
  }

  /** `topicsToFocus ? topicsToFocus.split(',').map(t => t.trim()) : []`. A falsy
      value gives no topics; a truthy value that is not a string has no `split`
      and the card fails to render (None). */
  function Topics(topicsToFocus: JsValue): (r: Option<seq<string>>)
    ensures !Truthy(topicsToFocus) ==> r == Some([])
    ensures r.None? <==> Truthy(topicsToFocus) && !topicsToFocus.Str?
    ensures topicsToFocus.Str? && topicsToFocus.s != "" ==>
              r.Some? && |r.value| == multiset(topicsToFocus.s)[','] + 1
              && forall k :: 0 <= k < |r.value| ==> Trimmed(r.value[k]) && ',' !in r.value[k]
  {
    if !Truthy(topicsToFocus) then Some([])
    else if !topicsToFocus.Str? then None
    else
      var pieces := Split(topicsToFocus.s, ',');
      SplitCount(topicsToFocus.s, ',');
      Some(seq(|pieces|, i requires 0 <= i < |pieces| => TrimOfPiece(pieces[i])))
  }

  /** One piece of the split, trimmed; trimming never brings in a comma. */
  function TrimOfPiece(piece: string): (r: string)
    requires ',' !in piece
    ensures Trimmed(r) && ',' !in r
  {
    TrimIsMiddle(piece);
    var i := |piece| - |TrimStart(piece)|;
    var r := Trim(piece);
    assert forall j :: 0 <= j < |r| ==> r[j] == piece[i + j];
    r
  }

  /** " " followed by each topic. */
  function Spaced(ts: seq<string>): (r: seq<string>)
    ensures |r| == |ts| && forall k :: 0 <= k < |ts| ==> r[k] == " " + ts[k]
  {
    seq(|ts|, i requires 0 <= i < |ts| => " " + ts[i])
  }

  /** Joining with ", " is joining with "," after putting a space before each later part. */
  lemma {:induction false} JoinCommaSpace(ts: seq<string>)
    requires |ts| >= 1
    ensures " " + Join(ts, ", ") == Join(Spaced(ts), ",")
  {
    if |ts| > 1 {
      JoinCommaSpace(ts[1..]);
      assert Spaced(ts)[1..] == Spaced(ts[1..]);
      CommaSpaceRegroup(ts[0], Join(ts[1..], ", "));
      assert " " + (ts[0] + ", " + Join(ts[1..], ", "))
             == (" " + ts[0]) + "," + (" " + Join(ts[1..], ", "));
    }
  }

  /** The pieces a ", "-joined list splits into at ",": the first topic, then each
      later topic after a space. */
  function CommaSpaced(ts: seq<string>): (r: seq<string>)
    requires |ts| >= 1
    ensures |r| == |ts| && r[0] == ts[0]
    ensures forall k :: 1 <= k < |ts| ==> r[k] == " " + ts[k]
  {
    [ts[0]] + Spaced(ts[1..])
  }

  lemma JoinAsCommaSpaced(ts: seq<string>)
    requires |ts| >= 1
    ensures Join(ts, ", ") == Join(CommaSpaced(ts), ",")
  {
    if |ts| > 1 {
      var parts := CommaSpaced(ts);
      var tail := Join(ts[1..], ", ");
      JoinCommaSpace(ts[1..]);
      assert parts[1..] == Spaced(ts[1..]);
      assert Join(parts, ",") == ts[0] + "," + (" " + tail);
      CommaSpaceRegroup(ts[0], tail);
    }
  }

  lemma CommaSpaceRegroup(a: string, b: string)
    ensures a + ", " + b == a + "," + (" " + b)
  {
    assert ", " == "," + " ";
  }

  lemma SplitCommaSpaced(ts: seq<string>)
    requires |ts| >= 1
    requires forall k :: 0 <= k < |ts| ==> ',' !in ts[k]
    ensures Split(Join(ts, ", "), ',') == CommaSpaced(ts)
  {
    var parts := CommaSpaced(ts);
    JoinAsCommaSpaced(ts);
    assert forall k :: 0 <= k < |parts| ==> ',' !in parts[k] by {
      forall k | 1 <= k < |parts|
        ensures ',' !in parts[k]
      {
        assert parts[k] == " " + ts[k];
      }
    }
    SplitJoin(parts, ',');
  }

  lemma TrimSpaced(t: string)
    requires Trimmed(t)
    ensures Trim(" " + t) == t
  {
    assert " " + t == " " + t + "";
    TrimSurrounded(" ", t, "");
    TrimOfTrimmed(t);
  }

  /** Topics written out as "a, b, c" come back as the same list, provided none
      has a comma or surrounding white space and the text is not empty. */
  lemma TopicsRoundTrip(ts: seq<string>)
    requires |ts| >= 1 && Join(ts, ", ") != ""
    requires forall k :: 0 <= k < |ts| ==> Trimmed(ts[k]) && ',' !in ts[k]
    ensures Topics(Str(Join(ts, ", "))) == Some(ts)
  {
    var parts := CommaSpaced(ts);
    SplitCommaSpaced(ts);
    TrimmedPieces(ts);
  }

  /** Each piece of a ", "-joined list trims back to its topic. */
  lemma TrimmedPieces(ts: seq<string>)
    requires |ts| >= 1
    requires forall k :: 0 <= k < |ts| ==> Trimmed(ts[k]) && ',' !in ts[k]
    ensures var parts := CommaSpaced(ts);
            seq(|parts|, i requires 0 <= i < |parts| => TrimOfPiece(parts[i])) == ts
  {
    var parts := CommaSpaced(ts);
    var r := seq(|parts|, i requires 0 <= i < |parts| => TrimOfPiece(parts[i]));
    forall k | 0 <= k < |ts|
      ensures r[k] == ts[k]
    {
      if k == 0 {
        TrimOfTrimmed(ts[0]);
      } else {
        TrimSpaced(ts[k]);
      }
    }
  }

  /** `topics.slice(0, 3)`: the chips shown. */
  function VisibleChips(topics: seq<string>): (r: seq<string>)
    ensures |r| <= 3 && r <= topics
    ensures |topics| <= 3 ==> r == topics
  {
    if |topics| <= 3 then topics else topics[..3]
  }

  /** The "+N" chip and its tooltip, present when there are more than three topics. */
  datatype Overflow = Overflow(text: string, tooltip: string)

  function OverflowChip(topics: seq<string>): (r: Option<Overflow>)
    ensures r.Some? <==> |topics| > 3
    ensures r.Some? ==> r.value.tooltip == Join(topics[3..], ", ")
  {
    if |topics| > 3 then Some(Overflow("+" + IntToDecimal(|topics| - 3), Join(topics[3..], ", "))) else None
  }

  /** The number the "+N" chip shows, 0 when there is none. */
  function HiddenCount(topics: seq<string>): (n: nat)
    ensures OverflowChip(topics).Some? ==>
              OverflowChip(topics).value.text == "+" + NatToDecimal(n)
  {
    if |topics| > 3 then |topics| - 3 else 0
  }

  /** The shown chips and the "+N" count account for every topic, and the tooltip
      lists exactly the hidden ones. */
  lemma ChipsCoverTopics(topics: seq<string>)
    ensures |VisibleChips(topics)| + HiddenCount(topics) == |topics|
    ensures VisibleChips(topics) + topics[|VisibleChips(topics)|..] == topics
    ensures OverflowChip(topics).Some? ==> |topics[3..]| == HiddenCount(topics)
  {
  }

  /** What React shows for a primitive value: nothing for undefined, null and
      booleans, the text of a string or number. */
  function Shown(v: JsValue): (r: string)
    requires !v.Arr? && !v.Obj?
    ensures v.Str? ==> r == v.s
    ensures Nullish(v) || v.Bool? ==> r == ""
  {
    match v
    case Str(s) => s
    case Num(n) => IntToDecimal(n)
    case _ => ""
  }

  /** The role chip: the role, or "General" when it is falsy. */
  function RoleLabel(role: JsValue): (r: string)
    requires !role.Arr? && !role.Obj?
    ensures !Truthy(role) ==> r == "General"
    ensures role.Str? && role.s != "" ==> r == role.s
  {
    Shown(Or(role, Str("General")))
  }

  /** The title: the role followed by " Practice Set"; a missing role leaves only
      the suffix. */
  function Title(role: JsValue): (r: string)
    requires !role.Arr? && !role.Obj?
    ensures EndsWith(r, " Practice Set")
    ensures Nullish(role) || role.Bool? ==> r == " Practice Set"
    ensures role.Str? ==> r == role.s + " Practice Set"
  {
    Shown(role) + " Practice Set"
  }

  /** The experience line, with "Any" for a falsy experience. */
  function ExperienceLabel(experience: JsValue): (r: string)
    requires !experience.Arr? && !experience.Obj?
    ensures !Truthy(experience) ==> r == "Experience: Any Yrs"
    ensures experience.Str? && experience.s != "" ==> r == "Experience: " + experience.s + " Yrs"
  {
    "Experience: " + Shown(Or(experience, Str("Any"))) + " Yrs"
  }

  /** The question count line, with 15 for a falsy count. */
  function QuestionCountLabel(questionCount: JsValue): (r: string)
    requires !questionCount.Arr? && !questionCount.Obj?
    ensures !Truthy(questionCount) ==> r == "15 Questions"
    ensures questionCount.Num? && questionCount.n > 0 ==>
              r == NatToDecimal(questionCount.n) + " Questions"
  {
    Shown(Or(questionCount, Num(15))) + " Questions"
  }
}
