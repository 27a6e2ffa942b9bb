/**
  Text made of segments joined by a separator character, as built by Rust's
  `Vec<String>::join`, together with the splitting that undoes it.
*/
module Separated {

  /** `segs.join(&sep.to_string())`. */
  function Join(segs: seq<string>, sep: char): (r: string)
    ensures |segs| == 0 ==> r == ""
    ensures forall c | c in r :: c == sep || exists i | 0 <= i < |segs| :: c in segs[i]
  {
    if |segs| == 0 then ""
    else if |segs| == 1 then segs[0]
    else
      var rest := Join(segs[1..], sep);
      assert forall c | c in rest :: c == sep || exists i | 1 <= i < |segs| :: c in segs[i] by {
        forall c | c in rest && c != sep
          ensures exists i | 1 <= i < |segs| :: c in segs[i]
        {
          var j :| 0 <= j < |segs[1..]| && c in segs[1..][j];
          assert c in segs[j + 1];
        }
      }
      segs[0] + [sep] + rest
  }

  /** `s.split(sep)`: the empty text splits into one empty segment. */
  function Split(s: string, sep: char): (r: seq<string>)
    ensures |r| >= 1
  {
    if |s| == 0 then [""]
    else if s[0] == sep then [""] + Split(s[1..], sep)
    else
      var rest := Split(s[1..], sep);
      [[s[0]] + rest[0]] + rest[1..]
  }

  /** The number of times `c` occurs in `s`. */
  function Occurrences(s: string, c: char): nat
  {
    if |s| == 0 then 0 else (if s[0] == c then 1 else 0) + Occurrences(s[1..], c)
  }

  /** Text without the separator is one segment. */
  lemma {:induction false} SplitSingle(a: string, sep: char)
    requires sep !in a
    ensures Split(a, sep) == [a]
  {
    if |a| > 0 {
      assert sep !in a[1..];
      SplitSingle(a[1..], sep);
      assert [a[0]] + a[1..] == a;
    }
  }

  /** A separator after a separator-free prefix ends exactly that segment. */
  lemma {:induction false} SplitAtSeparator(a: string, sep: char, b: string)
    requires sep !in a
    ensures Split(a + [sep] + b, sep) == [a] + Split(b, sep)
  {
    if |a| == 0 {
      assert a + [sep] + b == [sep] + b;
      assert ([sep] + b)[1..] == b;
    } else {
      assert (a + [sep] + b)[1..] == a[1..] + [sep] + b;
      assert sep !in a[1..];
      SplitAtSeparator(a[1..], sep, b);
      assert [a[0]] + a[1..] == a;
    }
  }

  /** Splitting undoes joining when no segment contains the separator. */
  lemma {:induction false} SplitJoin(segs: seq<string>, sep: char)
    requires |segs| >= 1
    requires forall i | 0 <= i < |segs| :: sep !in segs[i]
    ensures Split(Join(segs, sep), sep) == segs
  {
    if |segs| == 1 {
      SplitSingle(segs[0], sep);
    } else {
      SplitJoin(segs[1..], sep);
      SplitAtSeparator(segs[0], sep, Join(segs[1..], sep));
      assert [segs[0]] + segs[1..] == segs;
    }
  }

  /** Every separator starts a new segment. */
  lemma {:induction false} SplitCount(s: string, sep: char)
    ensures |Split(s, sep)| == Occurrences(s, sep) + 1
  {
    if |s| > 0 {
      SplitCount(s[1..], sep);
    }
  }

  /** Joining n separator-free segments puts exactly n - 1 separators between them. */
  lemma JoinSeparators(segs: seq<string>, sep: char)
    requires |segs| >= 1
    requires forall i | 0 <= i < |segs| :: sep !in segs[i]
    ensures Occurrences(Join(segs, sep), sep) == |segs| - 1
  {
    SplitJoin(segs, sep);
    SplitCount(Join(segs, sep), sep);
  }
}
