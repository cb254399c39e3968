/**
 * The three pieces of Python's `str` that the driver relies on, over `seq<char>`:
 * `s.split(sep, maxsplit)` with an explicit one-character separator, `sep.join(parts)`
 * (only as the reference the split is proved against) and the substring test `pat in s`.
 */
module PyStr {
  import opened Wrappers

  function Min(a: int, b: int): int {
    if a <= b then a else b
  }

  /** Number of occurrences of `c` in `s` (Python `s.count(c)`). */
  function CountChar(s: string, c: char): nat
    decreases |s|
  {
    if |s| == 0 then 0 else (if s[0] == c then 1 else 0) + CountChar(s[1..], c)
  }

  /**
   * Python `s.split(sep, maxsplit)`: split at the first `maxsplit` occurrences of `sep`,
   * left to right; the last part keeps the rest of the string, separators included.
   * An explicit separator never drops empty parts, and `"".split(sep)` is `[""]`.
   * Defined one character at a time: a separator closes the current part and uses up one
   * split, any other character joins the part that the rest of the string begins with.
   */
  function Split(s: string, sep: char, maxsplit: nat): (parts: seq<string>)
    ensures |parts| >= 1
    decreases |s|
  {
    if maxsplit == 0 || |s| == 0 then [s]
    else if s[0] == sep then [""] + Split(s[1..], sep, maxsplit - 1)
    else
      var rest := Split(s[1..], sep, maxsplit);
      [[s[0]] + rest[0]] + rest[1..]
  }

  /** Python `sep.join(parts)`. */
  function Join(parts: seq<string>, sep: char): string
    decreases |parts|
  {
    if |parts| == 0 then ""
    else if |parts| == 1 then parts[0]
    else parts[0] + [sep] + Join(parts[1..], sep)
  }

  /** `pat` occurs in `s` at position 0. */
  predicate HasPrefix(s: string, pat: string) {
    |pat| <= |s| && s[..|pat|] == pat
  }

  /** Python `pat in s` for strings: `pat` occurs somewhere in `s` (the empty string always does). */
  predicate Contains(s: string, pat: string)
    decreases |s|
  {
    HasPrefix(s, pat) || (|s| > 0 && Contains(s[1..], pat))
  }

  /** The parts a split may produce: all but the last free of `sep`, and the last one too
      unless the split stopped because it used up `maxsplit`. */
  predicate SplitShaped(parts: seq<string>, sep: char, maxsplit: nat) {
    && 1 <= |parts| <= maxsplit + 1
    && (forall k :: 0 <= k < |parts| - 1 ==> sep !in parts[k])
    && (|parts| <= maxsplit ==> sep !in parts[|parts| - 1])
  }

  lemma {:induction false} CountCharAppend(a: string, b: string, c: char)
    ensures CountChar(a + b, c) == CountChar(a, c) + CountChar(b, c)
    decreases |a|
  {
    if |a| > 0 {
      assert (a + b)[1..] == a[1..] + b;
      CountCharAppend(a[1..], b, c);
    } else {
      assert a + b == b;
    }
  }

  /** Joining a part in front of a non-empty list puts one separator between them. */
  lemma JoinCons(a: string, rest: seq<string>, sep: char)
    requires |rest| >= 1
    ensures Join([a] + rest, sep) == a + [sep] + Join(rest, sep)
  {
    assert ([a] + rest)[1..] == rest;
  }

  /** A character put in front of the first part lands in front of the join. */
  lemma JoinPrepend(c: char, parts: seq<string>, sep: char)
    requires |parts| >= 1
    ensures Join([[c] + parts[0]] + parts[1..], sep) == [c] + Join(parts, sep)
  {
    if |parts| > 1 {
      JoinCons([c] + parts[0], parts[1..], sep);
      JoinCons(parts[0], parts[1..], sep);
      assert parts == [parts[0]] + parts[1..];
    }
  }

  /** The split yields exactly min(number of separators, maxsplit) + 1 parts: it consumes
      one separator per split, never more than `maxsplit` of them. */
  lemma {:induction false} SplitLength(s: string, sep: char, maxsplit: nat)
    ensures |Split(s, sep, maxsplit)| == Min(CountChar(s, sep), maxsplit) + 1
    ensures |Split(s, sep, maxsplit)| <= maxsplit + 1
    decreases |s|
  {
    if maxsplit == 0 || |s| == 0 {
    } else if s[0] == sep {
      SplitLength(s[1..], sep, maxsplit - 1);
    } else {
      SplitLength(s[1..], sep, maxsplit);
    }
  }

  /** Joining the parts with the separator gives back the input exactly. */
  lemma {:induction false} SplitJoin(s: string, sep: char, maxsplit: nat)
    ensures Join(Split(s, sep, maxsplit), sep) == s
    decreases |s|
  {
    if maxsplit == 0 || |s| == 0 {
    } else if s[0] == sep {
      var rest := Split(s[1..], sep, maxsplit - 1);
      SplitJoin(s[1..], sep, maxsplit - 1);
      JoinCons("", rest, sep);
      assert s == [sep] + s[1..];
    } else {
      var rest := Split(s[1..], sep, maxsplit);
      SplitJoin(s[1..], sep, maxsplit);
      JoinPrepend(s[0], rest, sep);
      assert s == [s[0]] + s[1..];
    }
  }

  /** Only the last part can hold a separator, and only when all `maxsplit` splits were made. */
  lemma {:induction false} SplitIsShaped(s: string, sep: char, maxsplit: nat)
    ensures SplitShaped(Split(s, sep, maxsplit), sep, maxsplit)
    decreases |s|
  {
    SplitLength(s, sep, maxsplit);
    var parts := Split(s, sep, maxsplit);
    if maxsplit == 0 || |s| == 0 {
    } else if s[0] == sep {
      var rest := Split(s[1..], sep, maxsplit - 1);
      SplitIsShaped(s[1..], sep, maxsplit - 1);
      assert parts == [""] + rest;
      forall k | 0 <= k < |parts|
        ensures k > 0 ==> parts[k] == rest[k - 1]
      {
      }
    } else {
      var rest := Split(s[1..], sep, maxsplit);
      SplitIsShaped(s[1..], sep, maxsplit);
      var first := [s[0]] + rest[0];
      assert parts == [first] + rest[1..];
      assert sep !in rest[0] ==> sep !in first;
      forall k | 0 <= k < |parts|
        ensures k > 0 ==> parts[k] == rest[k]
      {
      }
    }
  }

  /** A part without separators splits into itself. */
  lemma {:induction false} SplitNoSeparator(p: string, sep: char, maxsplit: nat)
    requires sep !in p
    ensures Split(p, sep, maxsplit) == [p]
    decreases |p|
  {
    if maxsplit > 0 && |p| > 0 {
      SplitNoSeparator(p[1..], sep, maxsplit);
      assert p == [p[0]] + p[1..];
    }
  }

  /** A well-shaped list of two or more parts is its head followed by a shorter well-shaped list. */
  lemma ShapedTail(parts: seq<string>, sep: char, maxsplit: nat)
    requires SplitShaped(parts, sep, maxsplit) && |parts| >= 2
    ensures maxsplit > 0 && sep !in parts[0] && SplitShaped(parts[1..], sep, maxsplit - 1)
  {
    var tail := parts[1..];
    forall k | 0 <= k < |tail| - 1
      ensures sep !in tail[k]
    {
      assert tail[k] == parts[k + 1];
    }
    assert tail[|tail| - 1] == parts[|parts| - 1];
  }

  /** Dropping the first character of a non-empty first part keeps the list well shaped. */
  lemma ShapedBehead(parts: seq<string>, sep: char, maxsplit: nat)
    requires SplitShaped(parts, sep, maxsplit) && |parts[0]| > 0
    ensures SplitShaped([parts[0][1..]] + parts[1..], sep, maxsplit)
  {
    var q := [parts[0][1..]] + parts[1..];
    assert parts[0] == [parts[0][0]] + parts[0][1..];
    forall k | 0 <= k < |q|
      ensures k > 0 ==> q[k] == parts[k]
      ensures sep in q[k] ==> sep in parts[k]
    {
    }
  }

  /** Splitting a join of well-shaped parts gives the parts back: together with SplitJoin
      and SplitIsShaped this pins the split down as the one shaped decomposition of its input. */
  lemma {:induction false} JoinSplit(parts: seq<string>, sep: char, maxsplit: nat)
    requires SplitShaped(parts, sep, maxsplit)
    ensures Split(Join(parts, sep), sep, maxsplit) == parts
    decreases |Join(parts, sep)|
  {
    if |parts| == 1 {
      assert parts == [parts[0]];
      if maxsplit > 0 {
        SplitNoSeparator(parts[0], sep, maxsplit);
      }
    } else if parts[0] == "" {
      ShapedTail(parts, sep, maxsplit);
      var joined := Join(parts[1..], sep);
      JoinCons("", parts[1..], sep);
      assert parts == [""] + parts[1..];
      assert Join(parts, sep) == [sep] + joined;
      assert ([sep] + joined)[1..] == joined;
      JoinSplit(parts[1..], sep, maxsplit - 1);
    } else {
      ShapedTail(parts, sep, maxsplit);
      var c := parts[0][0];
      var q := [parts[0][1..]] + parts[1..];
      ShapedBehead(parts, sep, maxsplit);
      JoinPrepend(c, q, sep);
      assert q[0] == parts[0][1..] && q[1..] == parts[1..];
      assert [c] + q[0] == parts[0];
      assert parts == [[c] + q[0]] + q[1..];
      var joined := Join(q, sep);
      assert Join(parts, sep) == [c] + joined;
      assert ([c] + joined)[1..] == joined;
      JoinSplit(q, sep, maxsplit);
    }
  }

  /** `pat` occurs in `s` starting at position `i`. */
  predicate OccursAt(s: string, pat: string, i: int) {
    0 <= i && i + |pat| <= |s| && s[i..i + |pat|] == pat
  }

  /** `Contains` is the substring test: `pat` occurs at some position of `s`. */
  lemma {:induction false} ContainsIff(s: string, pat: string)
    ensures Contains(s, pat) <==> exists i :: OccursAt(s, pat, i)
    decreases |s|
  {
    if HasPrefix(s, pat) {
      assert OccursAt(s, pat, 0);
    } else if |s| > 0 {
      ContainsIff(s[1..], pat);
      if Contains(s[1..], pat) {
        var i :| OccursAt(s[1..], pat, i);
        assert s[i + 1..i + 1 + |pat|] == s[1..][i..i + |pat|];
        assert OccursAt(s, pat, i + 1);
      }
      if exists i :: OccursAt(s, pat, i) {
        var i :| OccursAt(s, pat, i);
        assert i != 0;
        assert s[1..][i - 1..i - 1 + |pat|] == s[i..i + |pat|];
        assert OccursAt(s[1..], pat, i - 1);
      }
    }
  }

  /** A string holds at least as many copies of a character as any substring of it. */
  lemma ContainsCount(s: string, pat: string, c: char)
    requires Contains(s, pat)
    ensures CountChar(s, c) >= CountChar(pat, c)
  {
    ContainsIff(s, pat);
    var i :| OccursAt(s, pat, i);
    assert s == s[..i] + pat + s[i + |pat|..];
    CountCharAppend(s[..i] + pat, s[i + |pat|..], c);
    CountCharAppend(s[..i], pat, c);
  }
}
