/** Python's string splitting and joining on one character. */
module Strings {

  /** Where a character first occurs, or the length of the text. */
  function IndexOf(s: string, ch: char): (i: nat)
    ensures i <= |s| && (i < |s| ==> s[i] == ch) && ch !in s[..i]
  {
    if s == [] || s[0] == ch then 0
    else
      assert s == [s[0]] + s[1..];
      1 + IndexOf(s[1..], ch)
  }

  /** At most `max` cuts, from the left. */
  function Split(s: string, ch: char, max: nat): (parts: seq<string>)
    ensures 1 <= |parts| <= max + 1
    decreases max
  {
    var i := IndexOf(s, ch);
    if max == 0 || i == |s| then [s] else [s[..i]] + Split(s[i + 1..], ch, max - 1)
  }

  lemma {:induction false} IndexAfter(front: string, ch: char, rest: string)
    requires ch !in front && (rest == [] || rest[0] == ch)
    ensures IndexOf(front + rest, ch) == |front|
  {
    var s := front + rest;
    if front == [] {
      assert s == rest;
    } else {
      assert s[0] == front[0] && s[1..] == front[1..] + rest;
      IndexAfter(front[1..], ch, rest);
    }
  }

  /** Cutting off a front part that does not contain the separator. */
  lemma SplitFront(front: string, ch: char, rest: string, max: nat)
    requires ch !in front && max >= 1
    ensures Split(front + [ch] + rest, ch, max) == [front] + Split(rest, ch, max - 1)
  {
    hide IndexOf;
    var s := front + [ch] + rest;
    assert s == front + ([ch] + rest);
    IndexAfter(front, ch, [ch] + rest);
    assert s[..|front|] == front && s[|front| + 1..] == rest;
  }

  lemma SplitWhole(s: string, ch: char, max: nat)
    requires ch !in s
    ensures Split(s, ch, max) == [s]
  {
    hide IndexOf;
    IndexAfter(s, ch, []);
    assert s + [] == s;
  }

  /** Two parts of one cut: the front has no separator, and the pieces make up the text. */
  lemma SplitOnce(s: string, ch: char)
    ensures |Split(s, ch, 1)| == 2 <==> ch in s
    ensures var parts := Split(s, ch, 1);
      |parts| == 2 ==> ch !in parts[0] && s == parts[0] + [ch] + parts[1]
  {
    var i := IndexOf(s, ch);
    SplitNowhere(if i < |s| then s[i + 1..] else "", ch);
    if i < |s| {
      assert s == s[..i] + [ch] + s[i + 1..];
    } else {
      assert s[..i] == s;
    }
  }

  lemma SplitNowhere(s: string, ch: char)
    ensures Split(s, ch, 0) == [s]
  {}

  function Join(parts: seq<string>, ch: char): string {
    if parts == [] then "" else if |parts| == 1 then parts[0] else parts[0] + [ch] + Join(parts[1..], ch)
  }

  /** Splitting everywhere undoes joining, except that nothing at all comes back as one empty part. */
  lemma {:induction false} SplitJoin(parts: seq<string>, ch: char, max: nat)
    requires forall i :: 0 <= i < |parts| ==> ch !in parts[i]
    requires max + 1 >= |parts|
    ensures Split(Join(parts, ch), ch, max) == if parts == [] then [""] else parts
  {
    hide Split;
    if |parts| == 0 {
      SplitWhole("", ch, max);
    } else if |parts| == 1 {
      SplitWhole(parts[0], ch, max);
    } else {
      SplitFront(parts[0], ch, Join(parts[1..], ch), max);
      SplitJoin(parts[1..], ch, max - 1);
    }
  }

  lemma {:induction false} JoinLength(parts: seq<string>, ch: char)
    ensures |Join(parts, ch)| + 1 >= |parts|
  {
    if |parts| >= 2 {
      JoinLength(parts[1..], ch);
    }
  }
}
