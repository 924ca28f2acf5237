/** The Python string operations the reader relies on, over `string` (`seq<char>`):
    deleting every ".0", splitting on and joining with a one-character separator,
    lower-casing and suffix tests. */
module Text {

  /** An ASCII decimal digit, the characters the `\d` of the reader's patterns stands for here. */
  predicate IsDigit(c: char) {
    '0' <= c <= '9'
  }

  /** No ".0" occurs anywhere in `s`. */
  predicate NoDotZero(s: string) {
    forall k :: 0 <= k < |s| - 1 ==> !(s[k] == '.' && s[k + 1] == '0')
  }

  /** Every '.' in `s` is directly followed by a digit, as in every number the patterns capture. */
  predicate DotsFollowedByDigits(s: string) {
    forall k :: 0 <= k < |s| && s[k] == '.' ==> k + 1 < |s| && IsDigit(s[k + 1])
  }

  /** Python's `replace` of ".0" by the empty string: scanning from the left, each
      occurrence that does not overlap one already deleted is deleted, in one pass. */
  function RemoveDotZero(s: string): (r: string)
    ensures |r| <= |s|
    ensures (|s| - |r|) % 2 == 0
  {
    if |s| >= 2 && s[0] == '.' && s[1] == '0' then RemoveDotZero(s[2..])
    else if s == [] then []
    else [s[0]] + RemoveDotZero(s[1..])
  }

  /** A string holding no ".0" is left as it is. */
  lemma {:induction false} RemoveDotZeroKeeps(s: string)
    requires NoDotZero(s)
    ensures RemoveDotZero(s) == s
  {
    if s != [] {
      assert NoDotZero(s[1..]) by {
        forall k | 0 <= k < |s[1..]| - 1 ensures !(s[1..][k] == '.' && s[1..][k + 1] == '0') {
          assert s[1..][k] == s[k + 1] && s[1..][k + 1] == s[k + 2];
        }
      }
      RemoveDotZeroKeeps(s[1..]);
      assert s == [s[0]] + s[1..];
    }
  }

  /** When every '.' is followed by a digit, one pass leaves no ".0" behind. */
  lemma {:induction false} RemoveDotZeroLeavesNone(s: string)
    requires DotsFollowedByDigits(s)
    ensures NoDotZero(RemoveDotZero(s))
  {
    if |s| >= 2 && s[0] == '.' && s[1] == '0' {
      assert DotsFollowedByDigits(s[2..]) by {
        forall k | 0 <= k < |s[2..]| && s[2..][k] == '.' ensures k + 1 < |s[2..]| && IsDigit(s[2..][k + 1]) {
          assert s[2..][k] == s[k + 2];
        }
      }
      RemoveDotZeroLeavesNone(s[2..]);
    } else if s != [] {
      var tail := s[1..];
      assert DotsFollowedByDigits(tail) by {
        forall k | 0 <= k < |tail| && tail[k] == '.' ensures k + 1 < |tail| && IsDigit(tail[k + 1]) {
          assert tail[k] == s[k + 1];
        }
      }
      RemoveDotZeroLeavesNone(tail);
      var rest := RemoveDotZero(tail);
      if s[0] == '.' {
        // the digit after the dot is not '0', and it is kept as the head of rest
        assert tail[0] == s[1] && s[1] != '0' && s[1] != '.';
        assert rest == [tail[0]] + RemoveDotZero(tail[1..]);
      }
      var r := [s[0]] + rest;
      forall k | 0 <= k < |r| - 1 ensures !(r[k] == '.' && r[k + 1] == '0') {
        if k > 0 {
          assert r[k] == rest[k - 1] && r[k + 1] == rest[k];
        }
      }
    }
  }

  /** Joining two strings whose dots are all followed by digits keeps that property. */
  lemma DotsFollowedByDigitsAppend(a: string, b: string)
    requires DotsFollowedByDigits(a) && DotsFollowedByDigits(b)
    ensures DotsFollowedByDigits(a + b)
  {
    var ab := a + b;
    forall k | 0 <= k < |ab| && ab[k] == '.' ensures k + 1 < |ab| && IsDigit(ab[k + 1]) {
      if k < |a| {
        assert ab[k] == a[k] && ab[k + 1] == a[k + 1];
      } else {
        assert ab[k] == b[k - |a|] && ab[k + 1] == b[k + 1 - |a|];
      }
    }
  }

  /** Deletion distributes over a concatenation whose left part does not end in '.'. */
  lemma {:induction false} RemoveDotZeroAppend(a: string, b: string)
    requires a == [] || a[|a| - 1] != '.'
    ensures RemoveDotZero(a + b) == RemoveDotZero(a) + RemoveDotZero(b)
  {
    var ab := a + b;
    if a == [] {
      assert ab == b;
    } else if |a| >= 2 && a[0] == '.' && a[1] == '0' {
      assert ab[0] == a[0] && ab[1] == a[1];
      assert ab[2..] == a[2..] + b;
      RemoveDotZeroAppend(a[2..], b);
    } else {
      assert ab[0] == a[0];
      assert ab[1..] == a[1..] + b;
      assert !(|ab| >= 2 && ab[0] == '.' && ab[1] == '0') by {
        if |a| >= 2 { assert ab[1] == a[1]; }
      }
      assert RemoveDotZero(ab) == [a[0]] + RemoveDotZero(a[1..] + b);
      assert RemoveDotZero(a) == [a[0]] + RemoveDotZero(a[1..]);
      RemoveDotZeroAppend(a[1..], b);
    }
  }

  /** Deletion goes round a character other than '.' or '0' between two parts whose
      first does not end in '.'. */
  lemma {:induction false} RemoveDotZeroAround(a: string, c: char, b: string)
    requires a == [] || a[|a| - 1] != '.'
    requires c != '.' && c != '0'
    ensures RemoveDotZero(a + [c] + b) == RemoveDotZero(a) + [c] + RemoveDotZero(b)
  {
    assert a + [c] + b == a + ([c] + b);
    RemoveDotZeroAppend(a, [c] + b);
    assert ([c] + b)[1..] == b;
  }

  /** Deletion leaves the " f/" between a focal part and an aperture part alone. */
  lemma {:induction false} RemoveDotZeroAroundMarker(focal: string, aperture: string)
    requires focal == [] || focal[|focal| - 1] != '.'
    ensures RemoveDotZero(focal + " f/" + aperture) == RemoveDotZero(focal) + " f/" + RemoveDotZero(aperture)
  {
    var x := " f/" + aperture;
    var y := "f/" + aperture;
    var z := "/" + aperture;
    assert z[0] == '/' && z[1..] == aperture;
    assert RemoveDotZero(z) == ['/'] + RemoveDotZero(aperture);
    assert y[0] == 'f' && y[1..] == z;
    assert RemoveDotZero(y) == ['f'] + RemoveDotZero(z);
    assert x[0] == ' ' && x[1..] == y;
    assert RemoveDotZero(x) == [' '] + RemoveDotZero(y);
    assert [' '] + (['f'] + (['/'] + RemoveDotZero(aperture))) == " f/" + RemoveDotZero(aperture);
    assert focal + " f/" + aperture == focal + x;
    RemoveDotZeroAppend(focal, x);
  }

  /** `sep.join(parts)`. */
  function Join(parts: seq<string>, sep: char): (r: string)
    ensures |r| >= |parts| - 1
  {
    if |parts| == 0 then ""
    else if |parts| == 1 then parts[0]
    else parts[0] + [sep] + Join(parts[1..], sep)
  }

  /** `s.split(sep)` for a one-character separator: the pieces between separators, so
      that an empty `s` gives one empty piece and two adjacent separators an empty one. */
  function Split(s: string, sep: char): (parts: seq<string>)
    ensures |parts| >= 1
    ensures forall i :: 0 <= i < |parts| ==> sep !in parts[i]
    decreases |s|
  {
    if s == [] then [""]
    else
      var rest := Split(s[1..], sep);
      if s[0] == sep then [""] + rest else [[s[0]] + rest[0]] + rest[1..]
  }

  /** The first piece of a split is the longest prefix free of the separator. */
  lemma {:induction false} SplitHead(s: string, sep: char)
    ensures var h := Split(s, sep)[0];
      h <= s && sep !in h && (|h| == |s| || s[|h|] == sep)
  {
    if s != [] && s[0] != sep {
      SplitHead(s[1..], sep);
      var h' := Split(s[1..], sep)[0];
      assert Split(s, sep)[0] == [s[0]] + h';
      assert s == [s[0]] + s[1..];
    }
  }

  /** Joining the pieces of a split gives the string back. */
  lemma {:induction false} SplitJoin(s: string, sep: char)
    ensures Join(Split(s, sep), sep) == s
  {
    if s != [] {
      var rest := Split(s[1..], sep);
      SplitJoin(s[1..], sep);
      if s[0] == sep {
        assert Split(s, sep) == [""] + rest;
        assert s == [sep] + s[1..];
      } else {
        var parts := Split(s, sep);
        assert parts[1..] == rest[1..];
        if |rest| == 1 {
          assert s == [s[0]] + rest[0];
        } else {
          assert Join(rest, sep) == rest[0] + [sep] + Join(rest[1..], sep);
          assert s == [s[0]] + s[1..];
        }
      }
    }
  }

  /** A separator splits a string into the pieces of its two sides. */
  lemma {:induction false} SplitAround(a: string, b: string, sep: char)
    ensures Split(a + [sep] + b, sep) == Split(a, sep) + Split(b, sep)
  {
    if a == [] {
      assert (a + [sep] + b)[1..] == b;
    } else {
      assert (a + [sep] + b)[1..] == a[1..] + [sep] + b;
      SplitAround(a[1..], b, sep);
    }
  }

  /** A string without the separator is one piece. */
  lemma {:induction false} SplitWithoutSep(a: string, sep: char)
    requires sep !in a
    ensures Split(a, sep) == [a]
  {
    if a != [] {
      SplitWithoutSep(a[1..], sep);
      assert a == [a[0]] + a[1..];
    }
  }

  /** Splitting a join never gives fewer pieces than were joined, and gives exactly
      those pieces back when none of them holds the separator. */
  lemma {:induction false} JoinSplit(parts: seq<string>, sep: char)
    requires |parts| >= 1
    ensures |Split(Join(parts, sep), sep)| >= |parts|
    ensures (forall i :: 0 <= i < |parts| ==> sep !in parts[i]) ==> Split(Join(parts, sep), sep) == parts
  {
    if |parts| == 1 {
      if sep !in parts[0] {
        SplitWithoutSep(parts[0], sep);
      }
    } else {
      JoinSplit(parts[1..], sep);
      SplitAround(parts[0], Join(parts[1..], sep), sep);
      if forall i :: 0 <= i < |parts| ==> sep !in parts[i] {
        SplitWithoutSep(parts[0], sep);
        assert parts == [parts[0]] + parts[1..];
      }
    }
  }

  /** Python's `lower` on one character, for the ASCII letters. */
  function LowerChar(c: char): (r: char)
    ensures 'A' <= c <= 'Z' ==> 'a' <= r <= 'z' && r as int - c as int == 'a' as int - 'A' as int
    ensures !('A' <= c <= 'Z') ==> r == c
    ensures !('A' <= r <= 'Z')
  {
    if 'A' <= c <= 'Z' then (c as int - 'A' as int + 'a' as int) as char else c
  }

  /** `s.lower()`, character by character. */
  function Lower(s: string): (r: string)
    ensures |r| == |s|
  {
    if s == [] then [] else [LowerChar(s[0])] + Lower(s[1..])
  }

  /** Lower-casing works character by character. */
  lemma {:induction false} LowerAt(s: string, k: nat)
    requires k < |s|
    ensures Lower(s)[k] == LowerChar(s[k])
  {
    if k > 0 {
      LowerAt(s[1..], k - 1);
    }
  }

  /** `s.endswith(suffix)`. */
  predicate EndsWith(s: string, suffix: string): (b: bool)
    ensures b <==> exists prefix :: s == prefix + suffix
  {
    if |suffix| <= |s| && s[|s| - |suffix|..] == suffix then
      assert s == s[..|s| - |suffix|] + suffix;
      true
    else
      false
  }
}
