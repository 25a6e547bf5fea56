/**
 Python's string operations on a one-character separator, as the parser uses them:
 `s.split(sep)`, `sep.join(pieces)` and `"".join(pieces)`, plus the small facts about them
 that the naming rules rest on.
 */
module PyStr {

  /** Number of occurrences of `c` in `s`. */
  function Count(s: string, c: char): (n: nat)
    ensures n <= |s|
    ensures n == 0 <==> c !in s
  {
    if |s| == 0 then 0
    else (if s[0] == c then 1 else 0) + Count(s[1..], c)
  }

  /**
   `s.split(sep)`: the pieces between consecutive separators. Like Python, the result is never
   empty (`"".split(".") == [""]`) and a separator at either end yields an empty piece.
   */
  function Split(s: string, sep: char): (pieces: seq<string>)
    ensures |pieces| == Count(s, sep) + 1
    ensures forall i :: 0 <= i < |pieces| ==> sep !in pieces[i]
  {
    if |s| == 0 then [""]
    else
      var rest := Split(s[1..], sep);
      if s[0] == sep then [""] + rest
      else [[s[0]] + rest[0]] + rest[1..]
  }

  /** `sep.join(pieces)`. */
  function Join(pieces: seq<string>, sep: char): string
  {
    if |pieces| == 0 then ""
    else if |pieces| == 1 then pieces[0]
    else pieces[0] + [sep] + Join(pieces[1..], sep)
  }

  /** `"".join(pieces)`: the pieces glued together with no separator. */
  function Concat(pieces: seq<string>): (r: string)
    ensures |pieces| == 1 ==> r == pieces[0]
    ensures forall c :: (forall i :: 0 <= i < |pieces| ==> c !in pieces[i]) ==> c !in r
  {
    if |pieces| == 0 then ""
    else pieces[0] + Concat(pieces[1..])
  }

  /** `s` with every occurrence of `c` deleted. */
  function RemoveAll(s: string, c: char): (r: string)
    ensures c !in r
    ensures |r| == |s| - Count(s, c)
    ensures c !in s ==> r == s
  {
    if |s| == 0 then ""
    else (if s[0] == c then "" else [s[0]]) + RemoveAll(s[1..], c)
  }

  /** Index of the last `c` in `s`, or -1 when there is none (`s.rfind(c)`). */
  function LastIndexOf(s: string, c: char): (k: int)
    ensures -1 <= k < |s|
    ensures k == -1 <==> c !in s
    ensures 0 <= k ==> s[k] == c && c !in s[k + 1..]
  {
    if |s| == 0 then -1
    else if s[|s| - 1] == c then |s| - 1
    else
      assert s == s[..|s| - 1] + [s[|s| - 1]];
      LastIndexOf(s[..|s| - 1], c)
  }

  /** Any position holding `c` with no `c` after it is the one `LastIndexOf` finds. */
  lemma LastIndexOfUnique(s: string, c: char, j: int)
    requires 0 <= j < |s| && s[j] == c && c !in s[j + 1..]
    ensures LastIndexOf(s, c) == j
  {
    assert s[j] in s;
  }

  /** Joining the pieces of a split gives back the original string. */
  lemma {:induction false} JoinSplit(s: string, sep: char)
    ensures Join(Split(s, sep), sep) == s
  {
    if |s| > 0 {
      var rest := Split(s[1..], sep);
      JoinSplit(s[1..], sep);
      if s[0] == sep {
        assert ([""] + rest)[1..] == rest;
      } else if |rest| > 1 {
        var pieces := [[s[0]] + rest[0]] + rest[1..];
        assert pieces[1..] == rest[1..];
        assert s == [s[0]] + s[1..];
      } else {
        assert s == [s[0]] + s[1..];
      }
    }
  }

  /** A string without the separator splits into itself alone. */
  lemma {:induction false} SplitWithoutSeparator(x: string, sep: char)
    requires sep !in x
    ensures Split(x, sep) == [x]
  {
    if |x| > 0 {
      assert x[1..] == x[|x| - (|x| - 1)..];
      assert sep !in x[1..] by {
        forall i | 0 <= i < |x[1..]| ensures x[1..][i] != sep {
          assert x[1..][i] == x[i + 1];
        }
      }
      SplitWithoutSeparator(x[1..], sep);
      assert [x[0]] + x[1..] == x;
    }
  }

  /** Splitting at the first separator peels off the text before it as the first piece. */
  lemma {:induction false} SplitAtFirst(x: string, sep: char, y: string)
    requires sep !in x
    ensures Split(x + [sep] + y, sep) == [x] + Split(y, sep)
  {
    var s := x + [sep] + y;
    if |x| == 0 {
      assert s[0] == sep && s[1..] == y;
    } else {
      assert s[0] == x[0] && s[1..] == x[1..] + [sep] + y;
      assert sep !in x[1..] by {
        forall i | 0 <= i < |x[1..]| ensures x[1..][i] != sep {
          assert x[1..][i] == x[i + 1];
        }
      }
      SplitAtFirst(x[1..], sep, y);
      assert [x[0]] + x[1..] == x;
    }
  }

  /** Splitting the join of separator-free pieces gives the pieces back. */
  lemma {:induction false} SplitJoin(pieces: seq<string>, sep: char)
    requires |pieces| >= 1
    requires forall i :: 0 <= i < |pieces| ==> sep !in pieces[i]
    ensures Split(Join(pieces, sep), sep) == pieces
  {
    if |pieces| == 1 {
      SplitWithoutSeparator(pieces[0], sep);
    } else {
      SplitJoin(pieces[1..], sep);
      SplitAtFirst(pieces[0], sep, Join(pieces[1..], sep));
      assert [pieces[0]] + pieces[1..] == pieces;
    }
  }

  /** Joining one more piece appends a separator and that piece. */
  lemma {:induction false} JoinSnoc(pieces: seq<string>, p: string, sep: char)
    requires |pieces| >= 1
    ensures Join(pieces + [p], sep) == Join(pieces, sep) + [sep] + p
  {
    if |pieces| > 1 {
      assert (pieces + [p])[1..] == pieces[1..] + [p];
      JoinSnoc(pieces[1..], p, sep);
    }
  }

  /**
   The last piece of a split is what follows the last separator: with more than one piece, the
   string is the join of the other pieces, one separator, and the last piece.
   */
  lemma SplitLast(s: string, sep: char)
    ensures var pieces := Split(s, sep);
      |pieces| == 1 ==> s == pieces[0]
    ensures var pieces := Split(s, sep);
      |pieces| > 1 ==> s == Join(pieces[..|pieces| - 1], sep) + [sep] + pieces[|pieces| - 1]
  {
    var pieces := Split(s, sep);
    JoinSplit(s, sep);
    if |pieces| > 1 {
      assert pieces == pieces[..|pieces| - 1] + [pieces[|pieces| - 1]];
      JoinSnoc(pieces[..|pieces| - 1], pieces[|pieces| - 1], sep);
    }
  }

  /** Deleting `c` from a concatenation deletes it from each part. */
  lemma {:induction false} RemoveAllAppend(a: string, b: string, c: char)
    ensures RemoveAll(a + b, c) == RemoveAll(a, c) + RemoveAll(b, c)
  {
    if |a| > 0 {
      assert (a + b)[0] == a[0] && (a + b)[1..] == a[1..] + b;
      RemoveAllAppend(a[1..], b, c);
    } else {
      assert a + b == b;
    }
  }

  /** Deleting the separator from a join of separator-free pieces is the plain concatenation. */
  lemma {:induction false} RemoveAllJoin(pieces: seq<string>, sep: char)
    requires forall i :: 0 <= i < |pieces| ==> sep !in pieces[i]
    ensures RemoveAll(Join(pieces, sep), sep) == Concat(pieces)
  {
    if |pieces| > 1 {
      var tail := Join(pieces[1..], sep);
      RemoveAllJoin(pieces[1..], sep);
      RemoveAllAppend(pieces[0] + [sep], tail, sep);
      RemoveAllAppend(pieces[0], [sep], sep);
    }
  }
}
