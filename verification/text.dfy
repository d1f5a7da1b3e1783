/**
 * Python's `str.split(sep)` and `sep.join(parts)` for a one-character
 * separator, as the document parser uses them, and the facts relating them.
 */
module Text {

  /** `s.split(sep)`: the maximal separator-free pieces of `s`, in order; never empty. */
  function Split(s: string, sep: char): (parts: seq<string>)
    ensures |parts| >= 1
    ensures forall i :: 0 <= i < |parts| ==> sep !in parts[i]
    decreases |s|
  {
    if s == [] then [[]]
    else
      var rest := Split(s[1..], sep);
      if s[0] == sep then [[]] + rest
      else [[s[0]] + rest[0]] + rest[1..]
  }

  /** `sep.join(parts)`: the parts in order with one separator between neighbours. */
  function Join(parts: seq<string>, sep: char): string
  {
    if |parts| == 0 then []
    else if |parts| == 1 then parts[0]
    else parts[0] + [sep] + Join(parts[1..], sep)
  }

  /** Sum of the lengths of the parts. */
  function TotalLength(parts: seq<string>): nat
  {
    if parts == [] then 0 else |parts[0]| + TotalLength(parts[1..])
  }

  /** `s.endswith(t)`. */
  predicate IsSuffix(t: string, s: string)
  {
    |t| <= |s| && s[|s| - |t|..] == t
  }

  /** Joining the pieces of a split gives back the original string. */
  lemma {:induction false} JoinSplit(s: string, sep: char)
    ensures Join(Split(s, sep), sep) == s
    decreases |s|
  {
    if s != [] {
      var rest := Split(s[1..], sep);
      JoinSplit(s[1..], sep);
      if s[0] == sep {
        assert Split(s, sep) == [[]] + rest;
        assert ([[]] + rest)[1..] == rest;
      } else {
        var parts := [[s[0]] + rest[0]] + rest[1..];
        assert Split(s, sep) == parts;
        if |rest| == 1 {
          assert parts == [[s[0]] + rest[0]];
          assert s == [s[0]] + s[1..];
        } else {
          assert parts[1..] == rest[1..];
          assert Join(rest, sep) == rest[0] + [sep] + Join(rest[1..], sep);
          assert s == [s[0]] + s[1..];
        }
      }
    }
  }

  /** Splitting `a + tail`, where `a` has no separator, glues `a` onto the first piece of `tail`. */
  lemma {:induction false} SplitPrefix(a: string, tail: string, sep: char)
    requires sep !in a
    ensures Split(a + tail, sep) == [a + Split(tail, sep)[0]] + Split(tail, sep)[1..]
    decreases |a|
  {
    if a == [] {
      assert a + tail == tail;
      var t := Split(tail, sep);
      assert a + t[0] == t[0];
      assert t == [t[0]] + t[1..];
    } else {
      var s := a + tail;
      assert s[0] == a[0] && s[1..] == a[1..] + tail;
      SplitPrefix(a[1..], tail, sep);
      var r := Split(s[1..], sep);
      assert Split(s, sep) == [[a[0]] + r[0]] + r[1..];
      assert [a[0]] + (a[1..] + Split(tail, sep)[0]) == a + Split(tail, sep)[0];
    }
  }

  /** Splitting the join of separator-free parts gives back the parts, provided there is at least one. */
  lemma {:induction false} SplitJoin(parts: seq<string>, sep: char)
    requires |parts| >= 1
    requires forall i :: 0 <= i < |parts| ==> sep !in parts[i]
    ensures Split(Join(parts, sep), sep) == parts
    decreases |parts|
  {
    if |parts| == 1 {
      SplitPrefix(parts[0], [], sep);
      assert parts[0] + [] == parts[0];
    } else {
      var tail := Join(parts[1..], sep);
      SplitJoin(parts[1..], sep);
      SplitPrefix(parts[0], [sep] + tail, sep);
      assert parts[0] + [sep] + tail == parts[0] + ([sep] + tail);
      assert ([sep] + tail)[0] == sep && ([sep] + tail)[1..] == tail;
      assert Split([sep] + tail, sep) == [[]] + parts[1..];
      assert parts[0] + [] == parts[0];
      assert parts == [parts[0]] + parts[1..];
    }
  }

  /** Appending a part adds one separator and the part at the end. */
  lemma {:induction false} JoinSnoc(parts: seq<string>, p: string, sep: char)
    requires |parts| >= 1
    ensures Join(parts + [p], sep) == Join(parts, sep) + [sep] + p
    decreases |parts|
  {
    if |parts| == 1 {
      assert (parts + [p])[1..] == [p];
    } else {
      JoinSnoc(parts[1..], p, sep);
      assert (parts + [p])[1..] == parts[1..] + [p];
    }
  }

  /** The joined string is as long as the parts together plus one separator between each neighbouring pair. */
  lemma {:induction false} JoinLength(parts: seq<string>, sep: char)
    ensures |Join(parts, sep)| == TotalLength(parts) + (if |parts| == 0 then 0 else |parts| - 1)
    decreases |parts|
  {
    if |parts| > 1 {
      JoinLength(parts[1..], sep);
    } else if |parts| == 1 {
      assert parts[1..] == [];
    }
  }

  /**
   * `s.split(sep)[-1]` is the text after the last separator: a separator-free
   * suffix of `s` that is either all of `s` or preceded by a separator.
   */
  lemma LastPiece(s: string, sep: char)
    ensures var t := Split(s, sep)[|Split(s, sep)| - 1];
      sep !in t && IsSuffix(t, s) && (|t| == |s| || s[|s| - |t| - 1] == sep)
  {
    var parts := Split(s, sep);
    var n := |parts|;
    var t := parts[n - 1];
    JoinSplit(s, sep);
    if n == 1 {
      assert s == t;
    } else {
      assert parts == parts[..n - 1] + [t];
      JoinSnoc(parts[..n - 1], t, sep);
      var front := Join(parts[..n - 1], sep);
      assert s == front + [sep] + t;
      assert s[|s| - |t|..] == t;
      assert s[|s| - |t| - 1] == sep;
    }
  }

  /** At most one string is a separator-free suffix of `s` that is all of `s` or preceded by a separator. */
  lemma SuffixAfterLastUnique(s: string, sep: char, t: string, u: string)
    requires sep !in t && IsSuffix(t, s) && (|t| == |s| || s[|s| - |t| - 1] == sep)
    requires sep !in u && IsSuffix(u, s) && (|u| == |s| || s[|s| - |u| - 1] == sep)
    ensures t == u
  {
  }
}
