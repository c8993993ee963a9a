/** The Python string operations the load script uses, `str.split(sep)` and
    `sep.join(parts)`, with two helpers for stating their properties:
    `CountChar` counts separators and `?` marks, and `TextLess` is the
    character-wise order that compares normalised dates as text. */
module PyText {

  /** Number of occurrences of `c` in `s`; used to count commas and `?` marks. */
  function CountChar(s: string, c: char): (n: nat)
    ensures n <= |s|
    ensures n == 0 <==> c !in s
  {
    if s == [] then 0
    else (if s[0] == c then 1 else 0) + CountChar(s[1..], c)
  }

  lemma {:induction false} CountCharConcat(a: string, b: string, c: char)
    ensures CountChar(a + b, c) == CountChar(a, c) + CountChar(b, c)
  {
    if a != [] {
      assert (a + b)[1..] == a[1..] + b;
      CountCharConcat(a[1..], b, c);
    } else {
      assert a + b == b;
    }
  }

  /** Python's `s.split(sep)` with an explicit separator: the maximal runs of
      characters between separators, so it is never empty and `""` gives `[""]`. */
  function Split(s: string, sep: char): (parts: seq<string>)
    ensures |parts| >= 1
    ensures forall i :: 0 <= i < |parts| ==> sep !in parts[i]
  {
    if s == [] then [""]
    else
      var tail := Split(s[1..], sep);
      if s[0] == sep then [""] + tail
      else [[s[0]] + tail[0]] + tail[1..]
  }

  /** Python's `sep.join(parts)`. */
  function Join(parts: seq<string>, sep: char): (s: string)
    ensures parts == [] ==> s == ""
    ensures |parts| >= 1 ==> parts[0] <= s
  {
    if |parts| == 0 then ""
    else if |parts| == 1 then parts[0]
    else parts[0] + [sep] + Join(parts[1..], sep)
  }

  /** Splitting yields one more part than there are separators. */
  lemma {:induction false} SplitCount(s: string, sep: char)
    ensures |Split(s, sep)| == CountChar(s, sep) + 1
  {
    if s != [] {
      SplitCount(s[1..], sep);
    }
  }

  /** Joining the parts of a split gives back the original string. */
  lemma {:induction false} JoinSplit(s: string, sep: char)
    ensures Join(Split(s, sep), sep) == s
  {
    if s != [] {
      JoinSplit(s[1..], sep);
      JoinSplitStep(s, sep);
    }
  }

  /** One step of `JoinSplit`: the round trip on `s[1..]` extends to `s`. */
  lemma JoinSplitStep(s: string, sep: char)
    requires s != [] && Join(Split(s[1..], sep), sep) == s[1..]
    ensures Join(Split(s, sep), sep) == s
  {
    var tail := Split(s[1..], sep);
    assert s == [s[0]] + s[1..];
    if s[0] == sep {
      assert Split(s, sep) == [""] + tail;
      assert ([""] + tail)[1..] == tail;
      assert Join([""] + tail, sep) == "" + [sep] + Join(tail, sep);
    } else {
      assert Split(s, sep) == [[s[0]] + tail[0]] + tail[1..];
      JoinPrepend(s[0], tail, sep);
    }
  }

  /** Putting `c` in front of the first part puts it in front of the join. */
  lemma JoinPrepend(c: char, parts: seq<string>, sep: char)
    requires |parts| >= 1
    ensures Join([[c] + parts[0]] + parts[1..], sep) == [c] + Join(parts, sep)
  {
    var first, rest := [c] + parts[0], parts[1..];
    var moved := [first] + rest;
    assert moved[0] == first && moved[1..] == rest;
    if |parts| > 1 {
      var j := Join(rest, sep);
      assert Join(moved, sep) == first + [sep] + j;
      assert Join(parts, sep) == parts[0] + [sep] + j;
      assert first + [sep] + j == [c] + (parts[0] + [sep] + j);
    }
  }

  lemma {:induction false} SplitNoSeparator(a: string, sep: char)
    requires sep !in a
    ensures Split(a, sep) == [a]
  {
    if a != [] {
      SplitNoSeparator(a[1..], sep);
      assert a == [a[0]] + a[1..];
    }
  }

  lemma {:induction false} SplitAtSeparator(a: string, b: string, sep: char)
    requires sep !in a
    ensures Split(a + [sep] + b, sep) == [a] + Split(b, sep)
  {
    if a == [] {
      assert a + [sep] + b == [sep] + b;
      assert ([sep] + b)[1..] == b;
    } else {
      var s := a + [sep] + b;
      assert s[0] == a[0] && s[1..] == a[1..] + [sep] + b;
      SplitAtSeparator(a[1..], b, sep);
      assert a == [a[0]] + a[1..];
    }
  }

  /** Splitting a join of separator-free parts gives the parts back. */
  lemma {:induction false} SplitJoin(parts: seq<string>, sep: char)
    requires |parts| >= 1
    requires forall i :: 0 <= i < |parts| ==> sep !in parts[i]
    ensures Split(Join(parts, sep), sep) == parts
  {
    if |parts| == 1 {
      SplitNoSeparator(parts[0], sep);
    } else {
      SplitJoin(parts[1..], sep);
      SplitAtSeparator(parts[0], Join(parts[1..], sep), sep);
      assert parts == [parts[0]] + parts[1..];
    }
  }

  /** `n` copies of the one-character string `c`: Python's `[c for _ in range(n)]`. */
  function Repeat(c: char, n: nat): (r: seq<string>)
    ensures |r| == n
    ensures forall i :: 0 <= i < n ==> r[i] == [c]
  {
    seq(n, _ => [c])
  }

  /** A character that occurs in none of the parts and is not the separator
      occurs nowhere in their join. */
  lemma {:induction false} JoinAvoids(parts: seq<string>, sep: char, c: char)
    requires c != sep
    requires forall i :: 0 <= i < |parts| ==> c !in parts[i]
    ensures CountChar(Join(parts, sep), c) == 0
  {
    if |parts| > 1 {
      JoinAvoids(parts[1..], sep, c);
      CountCharConcat(parts[0], [sep], c);
      CountCharConcat(parts[0] + [sep], Join(parts[1..], sep), c);
    }
  }

  /** Joining `n` copies of `c` with another separator holds `c` exactly `n` times. */
  lemma {:induction false} JoinRepeatCount(c: char, n: nat, sep: char)
    requires c != sep
    ensures CountChar(Join(Repeat(c, n), sep), c) == n
  {
    if n > 1 {
      JoinRepeatCount(c, n - 1, sep);
      assert Repeat(c, n)[1..] == Repeat(c, n - 1);
      CountCharConcat([c], [sep], c);
      CountCharConcat([c] + [sep], Join(Repeat(c, n - 1), sep), c);
    }
  }

  /** Lexicographic order by code point, a proper prefix first (the order of
      Python's `<` on `str`); used to state how normalised dates compare as text. */
  predicate TextLess(s: string, t: string)
  {
    if s == [] then t != []
    else if t == [] then false
    else s[0] < t[0] || (s[0] == t[0] && TextLess(s[1..], t[1..]))
  }

  /** Comparing two texts whose first pieces have the same width compares the
      first pieces, and the second pieces only when the first are equal. */
  lemma {:induction false} TextLessConcat(a1: string, a2: string, b1: string, b2: string)
    requires |a1| == |b1|
    ensures TextLess(a1 + a2, b1 + b2) <==> TextLess(a1, b1) || (a1 == b1 && TextLess(a2, b2))
  {
    if a1 == [] {
      assert a1 + a2 == a2 && b1 + b2 == b2;
    } else {
      assert (a1 + a2)[1..] == a1[1..] + a2;
      assert (b1 + b2)[1..] == b1[1..] + b2;
      TextLessConcat(a1[1..], a2, b1[1..], b2);
      assert a1 == [a1[0]] + a1[1..] && b1 == [b1[0]] + b1[1..];
    }
  }
}
