/** The few Python string operations the script relies on: `str.split` with a
    one-character separator, `sub in s` / `Series.str.contains` on a literal, and
    `str.endswith`. */
module Text {

  /** Python's `s.split(sep)` for a one-character separator: never empty, and
      two adjacent separators give an empty piece. */
  function Split(s: string, sep: char): (pieces: seq<string>)
    ensures |pieces| >= 1
  {
    if s == [] then [[]]
    else
      var rest := Split(s[1..], sep);
      if s[0] == sep then [[]] + rest
      else [[s[0]] + rest[0]] + rest[1..]
  }

  /** Python's `sep.join(pieces)`. */
  function Join(pieces: seq<string>, sep: char): string
    requires |pieces| >= 1
  {
    if |pieces| == 1 then pieces[0] else pieces[0] + [sep] + Join(pieces[1..], sep)
  }

  /** `s.split(sep)[0]`: the text before the first separator. */
  function First(s: string, sep: char): string
  {
    Split(s, sep)[0]
  }

  /** `s.split(sep)[-1]`: the text after the last separator. */
  function Last(s: string, sep: char): string
  {
    var pieces := Split(s, sep);
    pieces[|pieces| - 1]
  }

  /** `sub` occurs in `s` starting at index `i`. */
  predicate OccursAt(s: string, sub: string, i: int)
  {
    0 <= i <= |s| - |sub| && s[i..i + |sub|] == sub
  }

  /** `sub in s`: `sub` occurs in `s` at some position. */
  predicate Contains(s: string, sub: string)
  {
    exists i :: 0 <= i <= |s| && OccursAt(s, sub, i)
  }

  /** `s.endswith(suffix)`. */
  predicate EndsWith(s: string, suffix: string)
  {
    |suffix| <= |s| && s[|s| - |suffix|..] == suffix
  }

  /** Splitting and joining again gives back the original string. */
  lemma {:induction false} JoinSplit(s: string, sep: char)
    ensures Join(Split(s, sep), sep) == s
  {
    if s != [] {
      var rest := Split(s[1..], sep);
      JoinSplit(s[1..], sep);
      if s[0] == sep {
        assert Split(s, sep) == [[]] + rest;
        var empty: string := [];
        assert empty + [sep] + Join(rest, sep) == [s[0]] + s[1..];
      } else {
        var pieces := Split(s, sep);
        assert pieces == [[s[0]] + rest[0]] + rest[1..];
        if |rest| == 1 {
          assert Join(pieces, sep) == [s[0]] + rest[0];
        } else {
          assert pieces[1..] == rest[1..];
          assert Join(rest, sep) == rest[0] + [sep] + Join(rest[1..], sep);
          assert Join(pieces, sep) == [s[0]] + rest[0] + [sep] + Join(rest[1..], sep);
        }
        assert s == [s[0]] + s[1..];
      }
    }
  }

  /** No piece holds the separator, and every character of a piece comes from `s`. */
  lemma {:induction false} SplitPieces(s: string, sep: char)
    ensures forall k :: 0 <= k < |Split(s, sep)| ==> sep !in Split(s, sep)[k]
    ensures forall k, ch :: 0 <= k < |Split(s, sep)| && ch in Split(s, sep)[k] ==> ch in s
  {
    if s != [] {
      SplitPieces(s[1..], sep);
      var rest := Split(s[1..], sep);
      var pieces := Split(s, sep);
      if s[0] != sep {
        assert pieces == [[s[0]] + rest[0]] + rest[1..];
        forall k, ch | 0 <= k < |pieces| && ch in pieces[k]
          ensures ch in s
        {
          assert s == [s[0]] + s[1..];
          if k == 0 {
            if ch != s[0] {
              assert ch in rest[0];
              assert ch in s[1..];
            }
          } else {
            assert pieces[k] == rest[k];
            assert ch in s[1..];
          }
        }
        forall k | 0 <= k < |pieces|
          ensures sep !in pieces[k]
        {
          if k > 0 {
            assert pieces[k] == rest[k];
          }
        }
      } else {
        assert pieces == [[]] + rest;
        forall k, ch | 0 <= k < |pieces| && ch in pieces[k]
          ensures ch in s
        {
          assert s == [s[0]] + s[1..];
          assert pieces[k] == rest[k - 1];
          assert ch in s[1..];
        }
      }
    }
  }

  /** `s.split(sep)[0]` is the longest prefix of `s` without the separator. */
  lemma FirstIsPrefixBeforeSep(s: string, sep: char)
    ensures First(s, sep) <= s
    ensures sep !in First(s, sep)
    ensures |First(s, sep)| < |s| ==> s[|First(s, sep)|] == sep
    ensures sep !in s ==> First(s, sep) == s
  {
    SplitPieces(s, sep);
    JoinSplit(s, sep);
    var pieces := Split(s, sep);
    if |pieces| > 1 {
      assert s == pieces[0] + [sep] + Join(pieces[1..], sep);
      assert s[..|pieces[0]|] == pieces[0];
    } else {
      assert s == pieces[0];
    }
  }

  /** Joining pieces from the front puts the last piece at the end. */
  lemma {:induction false} JoinEndsWithLast(pieces: seq<string>, sep: char)
    requires |pieces| >= 1
    ensures var j := Join(pieces, sep);
            var p := pieces[|pieces| - 1];
            |p| <= |j| && j[|j| - |p|..] == p && (|pieces| > 1 ==> |p| < |j| && j[|j| - |p| - 1] == sep)
  {
    if |pieces| > 1 {
      JoinEndsWithLast(pieces[1..], sep);
      var tail := Join(pieces[1..], sep);
      var p := pieces[|pieces| - 1];
      assert pieces[1..][|pieces[1..]| - 1] == p;
      assert Join(pieces, sep) == (pieces[0] + [sep]) + tail;
      if |pieces| == 2 {
        assert tail == p;
      }
    }
  }

  /** `s.split(sep)[-1]` is the longest suffix of `s` without the separator. */
  lemma LastIsSuffixAfterSep(s: string, sep: char)
    ensures |Last(s, sep)| <= |s| && s[|s| - |Last(s, sep)|..] == Last(s, sep)
    ensures sep !in Last(s, sep)
    ensures |Last(s, sep)| < |s| ==> s[|s| - |Last(s, sep)| - 1] == sep
    ensures sep !in s ==> Last(s, sep) == s
  {
    SplitPieces(s, sep);
    JoinSplit(s, sep);
    var pieces := Split(s, sep);
    JoinEndsWithLast(pieces, sep);
    if |pieces| == 1 {
      assert s == pieces[0];
    }
  }

  /** Any tail of a string that occurs in `s` occurs in `s` too. */
  lemma ContainsTail(s: string, sub: string, k: nat)
    requires k <= |sub|
    requires Contains(s, sub)
    ensures Contains(s, sub[k..])
  {
    var i :| 0 <= i <= |s| && OccursAt(s, sub, i);
    assert 0 <= i <= |s| - |sub| && s[i..i + |sub|] == sub;
    assert s[i + k..i + k + |sub[k..]|] == sub[k..];
    assert OccursAt(s, sub[k..], i + k);
  }
}
