/**
 Splitting a string on a one-character separator, the way Go's `strings.Split`
 does it: `n` separators always give `n + 1` pieces, and the empty string gives
 one empty piece.
 */
module Strings {

  /** The pieces of `s` between occurrences of `sep`, from left to right. */
  function Split(s: string, sep: char): (parts: seq<string>)
    ensures |parts| >= 1
    ensures forall i :: 0 <= i < |parts| ==> sep !in parts[i]
    decreases |s|
  {
    if |s| == 0 then [""]
    else
      var rest := Split(s[1..], sep);
      if s[0] == sep then [""] + rest
      else [[s[0]] + rest[0]] + rest[1..]
  }

  /** Glues pieces back together with `sep` between neighbours. */
  function Join(parts: seq<string>, sep: char): string
    decreases |parts|
  {
    if |parts| == 0 then ""
    else if |parts| == 1 then parts[0]
    else parts[0] + [sep] + Join(parts[1..], sep)
  }

  /** The last piece of a split. */
  function LastPart(s: string, sep: char): string
  {
    var parts := Split(s, sep);
    parts[|parts| - 1]
  }

  /** Splitting loses nothing: joining the pieces gives back the input. */
  lemma {:induction false} JoinSplit(s: string, sep: char)
    ensures Join(Split(s, sep), sep) == s
    decreases |s|
  {
    if |s| > 0 {
      var rest := Split(s[1..], sep);
      JoinSplit(s[1..], sep);
      if s[0] == sep {
        assert Split(s, sep) == [""] + rest;
        assert ([""] + rest)[1..] == rest;
        assert s == "" + [sep] + s[1..];
      } else {
        var parts := Split(s, sep);
        assert parts == [[s[0]] + rest[0]] + rest[1..];
        if |rest| == 1 {
          assert s == [s[0]] + s[1..];
        } else {
          assert parts[1..] == rest[1..];
          assert Join(rest, sep) == rest[0] + [sep] + Join(rest[1..], sep);
          assert s == [s[0]] + s[1..];
        }
      }
    }
  }

  /** A string without the separator is a single piece. */
  lemma {:induction false} SplitWithoutSeparator(s: string, sep: char)
    requires sep !in s
    ensures Split(s, sep) == [s]
    decreases |s|
  {
    if |s| > 0 {
      SplitWithoutSeparator(s[1..], sep);
      assert [s[0]] + s[1..] == s;
    }
  }

  /** Splitting a string that starts with `c`: a separator opens a new piece, anything else extends the first one. */
  lemma SplitCons(c: char, t: string, sep: char)
    ensures Split([c] + t, sep) ==
      if c == sep then [""] + Split(t, sep)
      else [[c] + Split(t, sep)[0]] + Split(t, sep)[1..]
  {
    assert ([c] + t)[1..] == t;
  }

  /** Splitting distributes over one occurrence of the separator. */
  lemma {:induction false} SplitAround(a: string, b: string, sep: char)
    ensures Split(a + [sep] + b, sep) == Split(a, sep) + Split(b, sep)
    decreases |a|
  {
    if |a| == 0 {
      assert a + [sep] + b == [sep] + b;
      SplitCons(sep, b, sep);
    } else {
      var c, t := a[0], a[1..];
      assert a == [c] + t;
      assert a + [sep] + b == [c] + (t + [sep] + b);
      SplitAround(t, b, sep);
      SplitCons(c, t + [sep] + b, sep);
      SplitCons(c, t, sep);
      if c != sep {
        ExtendFirstPiece(c, Split(t, sep), Split(b, sep));
      } else {
        assert [""] + (Split(t, sep) + Split(b, sep)) == ([""] + Split(t, sep)) + Split(b, sep);
      }
    }
  }

  /** Extending the first piece of `pieces + more` is extending the first piece of `pieces`. */
  lemma ExtendFirstPiece(c: char, pieces: seq<string>, more: seq<string>)
    requires |pieces| >= 1
    ensures [[c] + (pieces + more)[0]] + (pieces + more)[1..] == ([[c] + pieces[0]] + pieces[1..]) + more
  {
    assert (pieces + more)[1..] == pieces[1..] + more;
  }

  /**
   The last piece is exactly what follows the last separator: given the
   position `i` just after the last separator (or 0 when there is none),
   the last piece is `s[i..]`.
   */
  lemma LastPartAfterLastSeparator(s: string, sep: char, i: nat)
    requires i <= |s|
    requires i == 0 || s[i - 1] == sep
    requires forall k :: i <= k < |s| ==> s[k] != sep
    ensures LastPart(s, sep) == s[i..]
  {
    assert sep !in s[i..];
    SplitWithoutSeparator(s[i..], sep);
    if i > 0 {
      assert s == s[..i - 1] + [sep] + s[i..];
      SplitAround(s[..i - 1], s[i..], sep);
    } else {
      assert s[i..] == s;
    }
  }
}
