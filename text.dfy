/**
  The string operations the application borrows from JavaScript: the white-space
  class shared by `\s` and `String.prototype.trim`, trimming, `split` on one
  character, joining with a separator, and ASCII case mapping.
  Strings are sequences of Unicode scalar values.
 */
module Text {

  /** ECMAScript WhiteSpace and LineTerminator code points: the set matched by `\s`
      and removed by `trim`. */
  predicate IsSpace(c: char) {
    var n := c as int;
    n == 0x09 || n == 0x0A || n == 0x0B || n == 0x0C || n == 0x0D
    || n == 0x20 || n == 0xA0 || n == 0x1680 || (0x2000 <= n <= 0x200A)
    || n == 0x2028 || n == 0x2029 || n == 0x202F || n == 0x205F
    || n == 0x3000 || n == 0xFEFF
  }

  predicate AllSpace(s: string) {
    forall i :: 0 <= i < |s| ==> IsSpace(s[i])
  }

  /** Neither the first nor the last character is white space. */
  predicate Trimmed(s: string) {
    |s| == 0 || (!IsSpace(s[0]) && !IsSpace(s[|s| - 1]))
  }

  predicate StartsWith(s: string, prefix: string) {
    |prefix| <= |s| && s[..|prefix|] == prefix
  }

  predicate EndsWith(s: string, suffix: string) {
    |suffix| <= |s| && s[|s| - |suffix|..] == suffix
  }

  /** `a` occurs somewhere inside `b`. */
  ghost predicate IsInfix(a: string, b: string) {
    exists pre, post :: b == pre + a + post
  }

  /** `line` is a whole line of `text`: it occurs with a line break on either side. */
  ghost predicate IsInnerLine(line: string, text: string) {
    IsInfix("\n" + line + "\n", text)
  }

  /** Removes the longest white-space prefix (`\s*` anchored at the start). */
  function TrimStart(s: string): (r: string)
    ensures |r| <= |s|
    ensures |r| == 0 || !IsSpace(r[0])
  {
    if |s| > 0 && IsSpace(s[0]) then TrimStart(s[1..]) else s
  }

  /** Removes the longest white-space suffix. */
  function TrimEnd(s: string): (r: string)
    ensures |r| <= |s|
    ensures |r| == 0 || !IsSpace(r[|r| - 1])
  {
    if |s| > 0 && IsSpace(s[|s| - 1]) then TrimEnd(s[..|s| - 1]) else s
  }

  /** `String.prototype.trim`. */
  function Trim(s: string): (r: string)
    ensures Trimmed(r)
    ensures |r| <= |s|
  {
    var t := TrimStart(s);
    TrimEndIsPrefix(t);
    TrimEnd(t)
  }

  /** What `TrimStart` removes is white space, and what it keeps is the rest of `s`. */
  lemma {:induction false} TrimStartIsSuffix(s: string)
    ensures var r := TrimStart(s);
            r == s[|s| - |r|..] && AllSpace(s[..|s| - |r|])
  {
    if |s| > 0 && IsSpace(s[0]) {
      TrimStartIsSuffix(s[1..]);
      var r := TrimStart(s);
      assert s[1..][|s| - 1 - |r|..] == s[|s| - |r|..];
      assert forall i :: 1 <= i < |s| - |r| ==> s[i] == s[1..][..|s| - 1 - |r|][i - 1];
    }
  }

  /** What `TrimEnd` removes is white space, and what it keeps is the start of `s`. */
  lemma {:induction false} TrimEndIsPrefix(s: string)
    ensures var r := TrimEnd(s);
            r == s[..|r|] && AllSpace(s[|r|..])
  {
    if |s| > 0 && IsSpace(s[|s| - 1]) {
      TrimEndIsPrefix(s[..|s| - 1]);
      var r := TrimEnd(s);
      assert s[..|s| - 1][..|r|] == s[..|r|];
      assert forall i :: |r| <= i < |s| - 1 ==> s[i] == s[..|s| - 1][|r|..][i - |r|];
    }
  }

  /** `trim` keeps the middle part of `s` and cuts only white space on both sides. */
  lemma TrimIsMiddle(s: string)
    ensures var i := |s| - |TrimStart(s)|; var r := Trim(s);
            i + |r| <= |s| && s[i..i + |r|] == r && AllSpace(s[..i]) && AllSpace(s[i + |r|..])
  {
    var t := TrimStart(s);
    var r := TrimEnd(t);
    var i := |s| - |t|;
    TrimStartIsSuffix(s);
    TrimEndIsPrefix(t);
    assert s[i + |r|..] == t[|r|..];
    assert s[i..i + |r|] == t[..|r|];
  }

  lemma {:induction false} TrimStartOfSpacePrefix(w: string, x: string)
    requires AllSpace(w)
    ensures TrimStart(w + x) == TrimStart(x)
  {
    if |w| > 0 {
      assert (w + x)[1..] == w[1..] + x;
      TrimStartOfSpacePrefix(w[1..], x);
    } else {
      assert w + x == x;
    }
  }

  /** Text starting with a non-space character stops `TrimStart` where it begins. */
  lemma {:induction false} TrimStartAppend(x: string, y: string)
    requires |y| > 0 && !IsSpace(y[0])
    ensures TrimStart(x + y) == TrimStart(x) + y
  {
    if |x| > 0 {
      assert (x + y)[0] == x[0];
      assert (x + y)[1..] == x[1..] + y;
      TrimStartAppend(x[1..], y);
    } else {
      assert x + y == y;
    }
  }

  lemma {:induction false} TrimEndOfSpaceSuffix(x: string, w: string)
    requires AllSpace(w)
    ensures TrimEnd(x + w) == TrimEnd(x)
  {
    if |w| > 0 {
      assert (x + w)[..|x + w| - 1] == x + w[..|w| - 1];
      TrimEndOfSpaceSuffix(x, w[..|w| - 1]);
    } else {
      assert x + w == x;
    }
  }

  /** Trimming is idempotent and leaves an already trimmed string alone. */
  lemma TrimOfTrimmed(s: string)
    requires Trimmed(s)
    ensures Trim(s) == s
  {
  }

  /** Surrounding white space does not change the trimmed value. */
  lemma TrimSurrounded(w1: string, x: string, w2: string)
    requires AllSpace(w1) && AllSpace(w2)
    ensures Trim(w1 + x + w2) == Trim(x)
  {
    TrimStartOfSpacePrefix(w1, x + w2);
    assert w1 + x + w2 == w1 + (x + w2);
    TrimStartIsSuffix(x);
    var t := TrimStart(x);
    var d := |x| - |t|;
    assert x == x[..d] + t;
    assert x + w2 == x[..d] + (t + w2);
    TrimStartOfSpacePrefix(x[..d], t + w2);
    if |t| > 0 {
      assert TrimStart(t + w2) == t + w2;
    } else {
      assert t + w2 == w2;
      TrimStartOfSpacePrefix(w2, "");
      assert w2 + "" == w2;
      TrimStartOfSpacePrefix(x[..d], "");
      assert x[..d] + "" == x;
    }
    TrimEndOfSpaceSuffix(t, w2);
  }

  /** A string ending in a suffix that starts and ends with non-space characters
      keeps that suffix under `trim`. */
  lemma TrimKeepsEnd(s: string, suffix: string)
    requires EndsWith(s, suffix) && |suffix| > 0
    requires !IsSpace(suffix[0]) && !IsSpace(suffix[|suffix| - 1])
    ensures EndsWith(Trim(s), suffix)
  {
    var t := TrimStart(s);
    TrimStartIsSuffix(s);
    var d := |s| - |t|;
    var j := |s| - |suffix|;
    assert s[j] == suffix[0];
    // the removed prefix is all space, so it stops before the suffix starts
    assert d <= j;
    assert t[|t| - |suffix|..] == suffix;
    assert TrimEnd(t) == t;
  }

  /** `s.split(sep)`: the pieces between occurrences of `sep`, empty pieces kept;
      the empty string gives one empty piece. */
  function Split(s: string, sep: char): (r: seq<string>)
    ensures |r| >= 1
    ensures forall k :: 0 <= k < |r| ==> sep !in r[k]
  {
    if |s| == 0 then [""]
    else
      var rest := Split(s[1..], sep);
      if s[0] == sep then [""] + rest
      else [[s[0]] + rest[0]] + rest[1..]
  }

  /** `parts.join(sep)` for parts that are already strings. */
  function Join(parts: seq<string>, sep: string): (r: string)
  {
    if |parts| == 0 then ""
    else if |parts| == 1 then parts[0]
    else parts[0] + sep + Join(parts[1..], sep)
  }

  /** Splitting and re-joining with the same separator restores the string. */
  lemma {:induction false} JoinSplit(s: string, sep: char)
    ensures Join(Split(s, sep), [sep]) == s
  {
    if |s| > 0 {
      var rest := Split(s[1..], sep);
      JoinSplit(s[1..], sep);
      if s[0] == sep {
        assert Split(s, sep)[1..] == rest;
      } else {
        var parts := Split(s, sep);
        if |rest| == 1 {
          assert parts == [[s[0]] + rest[0]];
        } else {
          assert parts[1..] == rest[1..];
          assert Join(rest, [sep]) == rest[0] + [sep] + Join(rest[1..], [sep]);
        }
        assert s == [s[0]] + s[1..];
      }
    }
  }

  /** A separator-free prefix joins the first piece of what follows it. */
  lemma {:induction false} SplitAfterPrefix(p: string, t: string, sep: char)
    requires sep !in p
    ensures Split(p + t, sep) == [p + Split(t, sep)[0]] + Split(t, sep)[1..]
  {
    if |p| > 0 {
      SplitAfterPrefix(p[1..], t, sep);
      var r := Split(t, sep);
      var rest := Split((p + t)[1..], sep);
      assert (p + t)[1..] == p[1..] + t;
      assert (p + t)[0] == p[0] && p[0] != sep;
      assert rest[0] == p[1..] + r[0] && rest[1..] == r[1..];
      assert Split(p + t, sep) == [[p[0]] + rest[0]] + rest[1..];
      assert [p[0]] + (p[1..] + r[0]) == p + r[0];
    } else {
      var r := Split(t, sep);
      assert p + t == t && p + r[0] == r[0];
      assert r == [r[0]] + r[1..];
    }
  }

  /** A leading separator splits off an empty piece. */
  lemma SplitAfterSeparator(t: string, sep: char)
    ensures Split([sep] + t, sep) == [""] + Split(t, sep)
  {
    assert ([sep] + t)[1..] == t;
  }

  /** Joining separator-free pieces and splitting again gives the pieces back. */
  lemma {:induction false} SplitJoin(parts: seq<string>, sep: char)
    requires |parts| >= 1
    requires forall k :: 0 <= k < |parts| ==> sep !in parts[k]
    ensures Split(Join(parts, [sep]), sep) == parts
  {
    if |parts| == 1 {
      SplitAfterPrefix(parts[0], "", sep);
      assert parts[0] + "" == parts[0];
    } else {
      var tail := parts[1..];
      var rest := Join(tail, [sep]);
      assert forall k :: 0 <= k < |tail| ==> tail[k] == parts[k + 1];
      SplitJoin(tail, sep);
      SplitAfterSeparator(rest, sep);
      var r := Split([sep] + rest, sep);
      assert r == [""] + tail;
      SplitAfterPrefix(parts[0], [sep] + rest, sep);
      assert Join(parts, [sep]) == parts[0] + ([sep] + rest);
      assert r[0] == "" && r[1..] == tail;
      assert parts[0] + "" == parts[0];
      assert parts == [parts[0]] + tail;
    }
  }

  /** `split` yields one more piece than there are separators. */
  lemma {:induction false} SplitCount(s: string, sep: char)
    ensures |Split(s, sep)| == multiset(s)[sep] + 1
  {
    if |s| > 0 {
      SplitCount(s[1..], sep);
      assert s == [s[0]] + s[1..];
      assert multiset(s) == multiset([s[0]]) + multiset(s[1..]);
    }
  }

  /** Joining two non-empty lists puts one separator between their joins. */
  lemma {:induction false} JoinAppend(a: seq<string>, b: seq<string>, sep: string)
    requires |a| > 0 && |b| > 0
    ensures Join(a + b, sep) == Join(a, sep) + sep + Join(b, sep)
  {
    if |a| == 1 {
      assert (a + b)[1..] == b;
    } else {
      assert (a + b)[1..] == a[1..] + b;
      JoinAppend(a[1..], b, sep);
    }
  }

  /** Every part occurs in the join. */
  lemma JoinContainsPart(parts: seq<string>, sep: string, k: nat)
    requires k < |parts|
    ensures IsInfix(parts[k], Join(parts, sep))
  {
    var j := Join(parts, sep);
    var pre := if k == 0 then "" else Join(parts[..k], sep) + sep;
    var post := if k == |parts| - 1 then "" else sep + Join(parts[k + 1..], sep);
    if k > 0 {
      assert parts == parts[..k] + parts[k..];
      JoinAppend(parts[..k], parts[k..], sep);
    } else {
      assert parts == parts[k..];
    }
    if k < |parts| - 1 {
      assert parts[k..] == [parts[k]] + parts[k + 1..];
      JoinAppend([parts[k]], parts[k + 1..], sep);
    }
    assert j == pre + parts[k] + post;
  }

  /** Occurring inside is transitive. */
  lemma InfixTransitive(a: string, b: string, c: string)
    requires IsInfix(a, b) && IsInfix(b, c)
    ensures IsInfix(a, c)
  {
    var p1, q1 :| b == p1 + a + q1;
    var p2, q2 :| c == p2 + b + q2;
    assert c == (p2 + p1) + a + (q1 + q2);
  }

  /** An inner part of a join stands between two separators: with "\n" it is a line
      of its own. */
  lemma JoinInnerPart(parts: seq<string>, sep: string, k: nat)
    requires 0 < k < |parts| - 1
    ensures IsInfix(sep + parts[k] + sep, Join(parts, sep))
  {
    assert parts == parts[..k] + ([parts[k]] + parts[k + 1..]);
    JoinAppend(parts[..k], [parts[k]] + parts[k + 1..], sep);
    JoinAppend([parts[k]], parts[k + 1..], sep);
    var pre := Join(parts[..k], sep);
    var post := Join(parts[k + 1..], sep);
    assert Join(parts, sep) == pre + (sep + parts[k] + sep) + post;
  }

  /** A join of at least two parts starts with the first part and a separator. */
  lemma JoinFirst(parts: seq<string>, sep: string)
    requires |parts| >= 2
    ensures StartsWith(Join(parts, sep), parts[0] + sep)
  {
  }

  /** A join of at least two parts ends with a separator and the last part. */
  lemma JoinLast(parts: seq<string>, sep: string)
    requires |parts| >= 2
    ensures EndsWith(Join(parts, sep), sep + parts[|parts| - 1])
  {
    var n := |parts|;
    assert parts == parts[..n - 1] + [parts[n - 1]];
    JoinAppend(parts[..n - 1], [parts[n - 1]], sep);
  }

  /** Case mapping of `toLowerCase` restricted to what can produce an ASCII letter:
      A-Z and the Kelvin sign U+212A, which lower-cases to 'k'. Every other character
      is left alone; for comparisons against ASCII text this decides the same as the
      full Unicode mapping. */
  function LowerChar(c: char): (r: char)
    ensures 'A' <= c <= 'Z' ==> r as int == c as int + 32
    ensures !('A' <= c <= 'Z') && c as int != 0x212A ==> r == c
  {
    if 'A' <= c <= 'Z' then (c as int + 32) as char
    else if c as int == 0x212A then 'k'
    else c
  }

  function Lower(s: string): (r: string)
    ensures |r| == |s|
    ensures forall i :: 0 <= i < |s| ==> r[i] == LowerChar(s[i])
  {
    if |s| == 0 then "" else [LowerChar(s[0])] + Lower(s[1..])
  }
}
