/** The lens-description simplifier of dng-reader.py: the two anchored patterns
    FOCAL_LENGTH and F_NUMBER, read as scanners over the string, and
    simplifyLensModel, which joins their captures as "<focal> f/<aperture>" and
    then deletes every ".0".

    Both patterns start with a lazy `.*?`, and `.` does not match a newline, so a
    match can only start on the first line. After the lazy prefix the groups are
    greedy and the trailing `.*` always succeeds, so the first position at which
    the groups can start decides the match, and greedy means longest there. */
module LensModel {
  import opened Wrappers
  import opened Text

  // ---------------------------------------------------------------------------
  // What the groups capture, stated without the scanners

  /** Only ASCII digits. */
  ghost predicate AllDigits(t: string) {
    forall k :: 0 <= k < |t| ==> IsDigit(t[k])
  }

  /** `t` has the shape `\d+(\.\d+)?`: digits and at most one '.', neither first nor last. */
  ghost predicate IsNumeral(t: string) {
    && |t| > 0 && IsDigit(t[0]) && IsDigit(t[|t| - 1])
    && (forall k :: 0 <= k < |t| ==> IsDigit(t[k]) || t[k] == '.')
    && (forall k, m :: 0 <= k < m < |t| && t[k] == '.' ==> t[m] != '.')
  }

  /** `t` has the shape `\d+(\.\d+)?(-\d+(\.\d+)?)?`: a numeral, or two joined by '-'. */
  ghost predicate IsValue(t: string) {
    || IsNumeral(t)
    || exists k :: DashSplits(t, k)
  }

  /** The '-' at `k` splits `t` into two numerals. */
  ghost predicate DashSplits(t: string, k: nat) {
    0 < k < |t| && t[k] == '-' && IsNumeral(t[..k]) && IsNumeral(t[k + 1..])
  }

  /** `s[i..j]` is a value and no longer one starts at `i`. */
  ghost predicate LongestValue(s: string, i: nat, j: nat) {
    && i <= j <= |s|
    && IsValue(s[i..j])
    && forall j' :: j < j' <= |s| ==> !IsValue(s[i..j'])
  }

  /** The lazy `.*?` can reach position `p`: no newline comes before it. */
  ghost predicate OnFirstLine(s: string, p: nat)
    requires p <= |s|
  {
    forall q :: 0 <= q < p ==> s[q] != '\n'
  }

  /** At `m` the aperture marker `(?:F|f/)` is followed by a digit. */
  predicate MarkerAt(s: string, m: nat) {
    || (m + 1 < |s| && s[m] == 'F' && IsDigit(s[m + 1]))
    || (m + 2 < |s| && s[m] == 'f' && s[m + 1] == '/' && IsDigit(s[m + 2]))
  }

  /** Where the aperture's digits start after a marker at `m`. */
  function MarkerEnd(s: string, m: nat): (q: nat)
    requires MarkerAt(s, m)
    ensures m < q < |s| && IsDigit(s[q])
  {
    if s[m] == 'F' then m + 1 else m + 2
  }

  /** FOCAL_LENGTH matches: a digit occurs before the first newline. */
  ghost predicate HasFocal(s: string) {
    exists p :: 0 <= p < |s| && IsDigit(s[p]) && OnFirstLine(s, p)
  }

  /** F_NUMBER matches: a marker followed by a digit occurs before the first newline. */
  ghost predicate HasAperture(s: string) {
    exists m :: 0 <= m < |s| && MarkerAt(s, m) && OnFirstLine(s, m)
  }

  /** `s[p..e]` is what FOCAL_LENGTH's first and third groups capture together: `p`
      is the first digit of `s`, it lies on the first line, and the value there ends at `e`. */
  ghost predicate FocalCapture(s: string, p: nat, e: nat) {
    && p < |s| && IsDigit(s[p]) && OnFirstLine(s, p)
    && (forall q :: 0 <= q < p ==> !IsDigit(s[q]))
    && LongestValue(s, p, e)
  }

  /** `m` is the earliest marker followed by a digit, it lies on the first line, and
      the value after it ends at `e`: F_NUMBER's first and third groups. */
  ghost predicate ApertureCapture(s: string, m: nat, e: nat) {
    && m < |s| && MarkerAt(s, m) && OnFirstLine(s, m)
    && (forall q :: 0 <= q < m ==> !MarkerAt(s, q))
    && LongestValue(s, MarkerEnd(s, m), e)
  }

  // ---------------------------------------------------------------------------
  // The scanners

  /** End of the greedy `\d*` that starts at `i`. */
  function DigitsEnd(s: string, i: nat): (j: nat)
    requires i <= |s|
    ensures i <= j <= |s|
    ensures forall k :: i <= k < j ==> IsDigit(s[k])
    ensures j == |s| || !IsDigit(s[j])
    decreases |s| - i
  {
    if i < |s| && IsDigit(s[i]) then DigitsEnd(s, i + 1) else i
  }

  /** End of the greedy `\d+(\.\d+)?` at a digit `i`. */
  function NumeralEnd(s: string, i: nat): (j: nat)
    requires i < |s| && IsDigit(s[i])
    ensures i < j <= |s|
    ensures IsDigit(s[j - 1]) && (j == |s| || !IsDigit(s[j]))
  {
    var d := DigitsEnd(s, i);
    if d + 1 < |s| && s[d] == '.' && IsDigit(s[d + 1]) then DigitsEnd(s, d + 1) else d
  }

  /** End of group 1 followed by the optional group 3, `(-\d+(\.\d+)?)?`, at a digit `i`. */
  function ValueEnd(s: string, i: nat): (j: nat)
    requires i < |s| && IsDigit(s[i])
    ensures NumeralEnd(s, i) <= j <= |s|
    ensures IsDigit(s[j - 1]) && (j == |s| || !IsDigit(s[j]))
  {
    var n := NumeralEnd(s, i);
    if n + 1 < |s| && s[n] == '-' && IsDigit(s[n + 1]) then NumeralEnd(s, n + 1) else n
  }

  /** The lazy prefix of FOCAL_LENGTH: the first digit at or after `k`, unless a newline comes first. */
  function FirstDigit(s: string, k: nat): (p: Option<nat>)
    requires k <= |s|
    ensures p.Some? ==> k <= p.value < |s| && IsDigit(s[p.value])
    ensures p.Some? ==> forall q :: k <= q < p.value ==> !IsDigit(s[q]) && s[q] != '\n'
    ensures p.None? ==> forall q :: k <= q < |s| && IsDigit(s[q]) ==> exists n :: k <= n < q && s[n] == '\n'
    decreases |s| - k
  {
    if k == |s| || s[k] == '\n' then None
    else if IsDigit(s[k]) then Some(k)
    else FirstDigit(s, k + 1)
  }

  /** The lazy prefix of F_NUMBER: the first marker followed by a digit at or after `k`,
      unless a newline comes first. */
  function FirstMarker(s: string, k: nat): (m: Option<nat>)
    requires k <= |s|
    ensures m.Some? ==> k <= m.value < |s| && MarkerAt(s, m.value)
    ensures m.Some? ==> forall q :: k <= q < m.value ==> !MarkerAt(s, q) && s[q] != '\n'
    ensures m.None? ==> forall q :: k <= q < |s| && MarkerAt(s, q) ==> exists n :: k <= n < q && s[n] == '\n'
    decreases |s| - k
  {
    if k == |s| || s[k] == '\n' then None
    else if MarkerAt(s, k) then Some(k)
    else FirstMarker(s, k + 1)
  }

  /** FOCAL_LENGTH's groups 1 and 3 joined (group 3 only when present); None when it does not match. */
  function FocalLength(s: string): (focal: Option<string>)
    ensures focal.Some? <==> FirstDigit(s, 0).Some?
    ensures focal.Some? ==> focal.value != [] && IsDigit(focal.value[0]) && IsDigit(focal.value[|focal.value| - 1])
  {
    match FirstDigit(s, 0)
    case None => None
    case Some(p) => Some(s[p..ValueEnd(s, p)])
  }

  /** F_NUMBER's groups 1 and 3 joined (group 3 only when present); None when it does not match. */
  function FNumber(s: string): (aperture: Option<string>)
    ensures aperture.Some? <==> FirstMarker(s, 0).Some?
    ensures aperture.Some? ==> aperture.value != [] && IsDigit(aperture.value[0]) && IsDigit(aperture.value[|aperture.value| - 1])
  {
    match FirstMarker(s, 0)
    case None => None
    case Some(m) =>
      var q := MarkerEnd(s, m);
      Some(s[q..ValueEnd(s, q)])
  }

  /** simplifyLensModel: "<focal> f/<aperture>" with every ".0" deleted; None stands
      for the path on which the program prints the description and exits. */
  function SimplifyLensModel(lensModel: string): (simplified: Option<string>)
    ensures simplified.Some? <==> FocalLength(lensModel).Some? && FNumber(lensModel).Some?
    ensures simplified.Some? ==> simplified.value != [] && simplified.value[0] == FocalLength(lensModel).value[0]
  {
    match (FocalLength(lensModel), FNumber(lensModel))
    case (Some(focal), Some(aperture)) => Some(RemoveDotZero(focal + " f/" + aperture))
    case _ => None
  }

  // ---------------------------------------------------------------------------
  // Greedy is longest

  /** The greedy `\d+(\.\d+)?` takes the longest numeral that starts at `i`. */
  lemma NumeralEndIsLongest(s: string, i: nat)
    requires i < |s| && IsDigit(s[i])
    ensures IsNumeral(s[i..NumeralEnd(s, i)])
    ensures forall j' :: NumeralEnd(s, i) < j' <= |s| ==> !IsNumeral(s[i..j'])
  {
    NumeralEndIsNumeral(s, i);
    forall j' | NumeralEnd(s, i) < j' <= |s| ensures !IsNumeral(s[i..j']) {
      NumeralEndIsMaximal(s, i, j');
    }
  }

  /** What the greedy `\d+(\.\d+)?` takes at `i` is a numeral. */
  lemma NumeralEndIsNumeral(s: string, i: nat)
    requires i < |s| && IsDigit(s[i])
    ensures IsNumeral(s[i..NumeralEnd(s, i)])
  {
    var j := NumeralEnd(s, i);
    var t := s[i..j];
    assert t[0] == s[i] && t[|t| - 1] == s[j - 1];
    forall k | 0 <= k < |t| ensures IsDigit(t[k]) || t[k] == '.' {
      assert t[k] == s[i + k];
    }
    forall k, m | 0 <= k < m < |t| && t[k] == '.' ensures t[m] != '.' {
      assert t[k] == s[i + k] && t[m] == s[i + m];
    }
  }

  /** No numeral that starts at `i` ends after the greedy one. */
  lemma NumeralEndIsMaximal(s: string, i: nat, j': nat)
    requires i < |s| && IsDigit(s[i]) && NumeralEnd(s, i) < j' <= |s|
    ensures !IsNumeral(s[i..j'])
  {
    var d := DigitsEnd(s, i);
    var j := NumeralEnd(s, i);
    var t' := s[i..j'];
    if j == d {
      assert t'[d - i] == s[d];
      if s[d] == '.' {
        if j' == d + 1 {
          assert t'[|t'| - 1] == s[d];
        } else {
          assert t'[d + 1 - i] == s[d + 1];
        }
      }
    } else {
      assert t'[d - i] == s[d] && t'[j - i] == s[j];
    }
  }

  /** A value holds only digits, '.' and '-', begins with a digit and has every '.' followed by a digit. */
  lemma ValueShape(t: string)
    requires IsValue(t)
    ensures |t| > 0 && IsDigit(t[0]) && IsDigit(t[|t| - 1])
    ensures forall k :: 0 <= k < |t| ==> IsDigit(t[k]) || t[k] == '.' || t[k] == '-'
    ensures DotsFollowedByDigits(t)
  {
    if IsNumeral(t) {
      NumeralDots(t);
    } else {
      var k: nat :| DashSplits(t, k);
      RangeShape(t, k);
    }
  }

  /** The one '.' of a numeral is followed by a digit. */
  lemma NumeralDots(t: string)
    requires IsNumeral(t)
    ensures DotsFollowedByDigits(t)
  {
    forall k | 0 <= k < |t| && t[k] == '.' ensures k + 1 < |t| && IsDigit(t[k + 1]) {
      assert k != |t| - 1;
      assert t[k + 1] != '.';
    }
  }

  /** Two numerals joined by '-' have the shape of a value. */
  lemma RangeShape(t: string, k: nat)
    requires 0 < k < |t| - 1 && t[k] == '-' && IsNumeral(t[..k]) && IsNumeral(t[k + 1..])
    ensures IsDigit(t[0]) && IsDigit(t[|t| - 1])
    ensures forall x :: 0 <= x < |t| ==> IsDigit(t[x]) || t[x] == '.' || t[x] == '-'
    ensures DotsFollowedByDigits(t)
  {
    var a, b := t[..k], t[k + 1..];
    NumeralDots(a);
    NumeralDots(b);
    assert t[0] == a[0] && t[|t| - 1] == b[|b| - 1];
    forall x | 0 <= x < |t| ensures IsDigit(t[x]) || t[x] == '.' || t[x] == '-' {
      if x < k { assert t[x] == a[x]; } else if x > k { assert t[x] == b[x - k - 1]; }
    }
    forall x | 0 <= x < |t| && t[x] == '.' ensures x + 1 < |t| && IsDigit(t[x + 1]) {
      if x < k {
        assert t[x] == a[x];
      } else {
        assert t[x] == b[x - k - 1];
      }
    }
  }

  /** Inside the longest numeral that starts at `i` there are only digits and '.'. */
  lemma {:induction false} InsideNumeral(s: string, i: nat, x: nat)
    requires i < |s| && IsDigit(s[i]) && i <= x < NumeralEnd(s, i)
    ensures IsDigit(s[x]) || s[x] == '.'
  {
    NumeralEndIsNumeral(s, i);
    assert s[i..NumeralEnd(s, i)][x - i] == s[x];
  }

  /** A '-' that ends a numeral starting at `i` stands where the longest numeral there ends. */
  lemma {:induction false} DashEndsNumeral(s: string, i: nat, d: nat)
    requires i < d < |s| && IsDigit(s[i]) && s[d] == '-' && IsNumeral(s[i..d])
    ensures d == NumeralEnd(s, i)
  {
    var n := NumeralEnd(s, i);
    if d > n {
      NumeralEndIsMaximal(s, i, d);
    } else if d < n {
      InsideNumeral(s, i, d);
    }
  }

  /** A value with a '-' that starts at `i` continues the longest numeral there with
      '-' and a second numeral. */
  lemma {:induction false} RangeAfterNumeral(s: string, i: nat, j': nat)
    requires i < j' <= |s| && IsDigit(s[i])
    requires exists k :: DashSplits(s[i..j'], k)
    ensures var n := NumeralEnd(s, i);
      n + 1 < j' && s[n] == '-' && IsNumeral(s[n + 1..j'])
  {
    var t' := s[i..j'];
    var k: nat :| DashSplits(t', k);
    DashAt(s, i, j', k);
  }

  lemma DashAt(s: string, i: nat, j': nat, k: nat)
    requires i < j' <= |s| && IsDigit(s[i]) && 0 < k < j' - i
    requires s[i..j'][k] == '-' && IsNumeral(s[i..j'][..k]) && IsNumeral(s[i..j'][k + 1..])
    ensures var n := NumeralEnd(s, i);
      n + 1 < j' && s[n] == '-' && IsNumeral(s[n + 1..j'])
  {
    assert s[i..j'][..k] == s[i..i + k];
    assert s[i + k] == s[i..j'][k];
    DashEndsNumeral(s, i, i + k);
    assert s[i + k + 1..j'] == s[i..j'][k + 1..];
  }

  /** A value that starts at `i` either lies within the longest numeral there, or
      continues that numeral with '-' and a second numeral. */
  lemma {:induction false} ValueAfterNumeral(s: string, i: nat, j': nat)
    requires i < j' <= |s| && IsDigit(s[i]) && IsValue(s[i..j'])
    ensures var n := NumeralEnd(s, i);
      j' <= n || (n + 1 < j' && s[n] == '-' && IsNumeral(s[n + 1..j']))
  {
    if IsNumeral(s[i..j']) {
      assert j' <= NumeralEnd(s, i) by {
        if j' > NumeralEnd(s, i) { NumeralEndIsMaximal(s, i, j'); }
      }
    } else {
      RangeAfterNumeral(s, i, j');
    }
  }

  /** The greedy value (group 1 and the optional group 3) is the longest value that starts at `i`. */
  lemma {:induction false} ValueEndIsLongest(s: string, i: nat)
    requires i < |s| && IsDigit(s[i])
    ensures LongestValue(s, i, ValueEnd(s, i))
  {
    ValueEndIsValue(s, i);
    forall j' | ValueEnd(s, i) < j' <= |s| ensures !IsValue(s[i..j']) {
      NoLongerValue(s, i, j');
    }
  }

  /** No value that starts at `i` reaches past the greedy one. */
  lemma NoLongerValue(s: string, i: nat, j': nat)
    requires i < |s| && IsDigit(s[i]) && ValueEnd(s, i) < j' <= |s|
    ensures !IsValue(s[i..j'])
  {
    if IsValue(s[i..j']) {
      var n := NumeralEnd(s, i);
      ValueAfterNumeral(s, i, j');
      assert IsDigit(s[n + 1]) by {
        assert s[n + 1..j'][0] == s[n + 1];
      }
      NumeralEndIsMaximal(s, n + 1, j');
    }
  }

  /** What the greedy groups take at `i` is a value. */
  lemma ValueEndIsValue(s: string, i: nat)
    requires i < |s| && IsDigit(s[i])
    ensures IsValue(s[i..ValueEnd(s, i)])
  {
    var n := NumeralEnd(s, i);
    NumeralEndIsNumeral(s, i);
    if n + 1 < |s| && s[n] == '-' && IsDigit(s[n + 1]) {
      NumeralEndIsNumeral(s, n + 1);
      RangeIsValueAt(s, i, n, NumeralEnd(s, n + 1));
    }
  }

  /** A numeral, a '-' and a numeral, written one after the other, make a value. */
  lemma RangeIsValueAt(s: string, i: nat, n: nat, j: nat)
    requires i < n < j <= |s| && s[n] == '-'
    requires IsNumeral(s[i..n]) && IsNumeral(s[n + 1..j])
    ensures IsValue(s[i..j])
  {
    var t := s[i..j];
    assert t[..n - i] == s[i..n];
    assert t[n - i + 1..] == s[n + 1..j];
    assert DashSplits(t, n - i);
  }

  /** Two ends that both give the longest value at `i` are the same. */
  lemma LongestValueUnique(s: string, i: nat, j: nat, j': nat)
    requires LongestValue(s, i, j) && LongestValue(s, i, j')
    ensures j == j'
  {
  }

  /** The greedy value at `i` is `v` when `v` is a value written there and what follows
      it cannot continue a value. */
  lemma {:induction false} ValueEndAt(s: string, i: nat, v: string)
    requires i + |v| <= |s| && s[i..i + |v|] == v && IsValue(v)
    requires i + |v| == |s| || !(IsDigit(s[i + |v|]) || s[i + |v|] == '.' || s[i + |v|] == '-')
    ensures IsDigit(s[i]) && ValueEnd(s, i) == i + |v|
  {
    ValueShape(v);
    assert s[i] == v[0];
    var j := ValueEnd(s, i);
    ValueEndIsLongest(s, i);
    if j > i + |v| {
      ValueShape(s[i..j]);
    }
  }

  // ---------------------------------------------------------------------------
  // When the patterns match, and what they capture

  /** FOCAL_LENGTH matches exactly when a digit comes before the first newline, and
      then its capture is the value at the first digit. */
  lemma {:induction false} FocalLengthMatches(s: string)
    ensures FocalLength(s).Some? <==> HasFocal(s)
    ensures HasFocal(s) ==> exists p, e :: FocalCapture(s, p, e)
  {
    match FirstDigit(s, 0)
    case Some(p) =>
      assert OnFirstLine(s, p);
      ValueEndIsLongest(s, p);
      assert FocalCapture(s, p, ValueEnd(s, p));
    case None =>
      forall p | 0 <= p < |s| && IsDigit(s[p]) ensures !OnFirstLine(s, p) {
        var n :| 0 <= n < p && s[n] == '\n';
      }
  }

  /** The focal capture the pattern makes is the one the declarative reading describes. */
  lemma {:induction false} FocalLengthCaptures(s: string, p: nat, e: nat)
    requires FocalCapture(s, p, e)
    ensures FocalLength(s) == Some(s[p..e])
  {
    FocalLengthMatches(s);
    var p' := FirstDigit(s, 0).value;
    assert p' == p;
    ValueEndIsLongest(s, p);
    LongestValueUnique(s, p, e, ValueEnd(s, p));
  }

  /** F_NUMBER matches exactly when a marker followed by a digit comes before the first
      newline, and then its capture is the value after the earliest such marker. */
  lemma {:induction false} FNumberMatches(s: string)
    ensures FNumber(s).Some? <==> HasAperture(s)
    ensures HasAperture(s) ==> exists m, e :: ApertureCapture(s, m, e)
  {
    match FirstMarker(s, 0)
    case Some(m) =>
      assert OnFirstLine(s, m);
      ValueEndIsLongest(s, MarkerEnd(s, m));
      assert ApertureCapture(s, m, ValueEnd(s, MarkerEnd(s, m)));
    case None =>
      forall m | 0 <= m < |s| && MarkerAt(s, m) ensures !OnFirstLine(s, m) {
        var n :| 0 <= n < m && s[n] == '\n';
      }
  }

  /** The aperture capture the pattern makes is the one the declarative reading describes. */
  lemma {:induction false} FNumberCaptures(s: string, m: nat, e: nat)
    requires ApertureCapture(s, m, e)
    ensures FNumber(s) == Some(s[MarkerEnd(s, m)..e])
  {
    FNumberMatches(s);
    var m' := FirstMarker(s, 0).value;
    assert m' == m;
    ValueEndIsLongest(s, MarkerEnd(s, m));
    LongestValueUnique(s, MarkerEnd(s, m), e, ValueEnd(s, MarkerEnd(s, m)));
  }

  // ---------------------------------------------------------------------------
  // simplifyLensModel

  /** The program exits on a lens description exactly when one of the two patterns fails. */
  lemma {:induction false} SimplifyFailsIff(s: string)
    ensures SimplifyLensModel(s).None? <==> !HasFocal(s) || !HasAperture(s)
  {
    FocalLengthMatches(s);
    FNumberMatches(s);
  }

  /** Otherwise the result is the focal capture, " f/" and the aperture capture, with every ".0" deleted. */
  lemma {:induction false} SimplifyJoinsCaptures(s: string, p: nat, e: nat, m: nat, e': nat)
    requires FocalCapture(s, p, e) && ApertureCapture(s, m, e')
    ensures SimplifyLensModel(s) == Some(RemoveDotZero(s[p..e] + " f/" + s[MarkerEnd(s, m)..e']))
  {
    FocalLengthCaptures(s, p, e);
    FNumberCaptures(s, m, e');
  }

  /** Both captures are values. */
  lemma {:induction false} CapturesAreValues(s: string)
    ensures FocalLength(s).Some? ==> IsValue(FocalLength(s).value)
    ensures FNumber(s).Some? ==> IsValue(FNumber(s).value)
  {
    if FirstDigit(s, 0).Some? {
      ValueEndIsLongest(s, FirstDigit(s, 0).value);
    }
    if FirstMarker(s, 0).Some? {
      ValueEndIsLongest(s, MarkerEnd(s, FirstMarker(s, 0).value));
    }
  }

  /** No ".0" is left in a simplified description. */
  lemma {:induction false} SimplifiedHasNoDotZero(s: string)
    ensures SimplifyLensModel(s).Some? ==> NoDotZero(SimplifyLensModel(s).value)
  {
    if SimplifyLensModel(s).Some? {
      var focal, aperture := FocalLength(s).value, FNumber(s).value;
      CapturesAreValues(s);
      ValueShape(focal);
      ValueShape(aperture);
      assert DotsFollowedByDigits(" f/");
      DotsFollowedByDigitsAppend(focal, " f/");
      DotsFollowedByDigitsAppend(focal + " f/", aperture);
      RemoveDotZeroLeavesNone(focal + " f/" + aperture);
    }
  }

  // ---------------------------------------------------------------------------
  // Simplifying twice changes nothing

  /** A non-empty run of digits is a numeral. */
  lemma DigitsAreNumeral(t: string)
    requires |t| > 0 && AllDigits(t)
    ensures IsNumeral(t) && NoDotZero(t)
  {
  }

  /** Deleting ".0" from a numeral leaves a numeral. */
  lemma {:induction false} NumeralWithoutDotZero(t: string)
    requires IsNumeral(t)
    ensures IsNumeral(RemoveDotZero(t))
  {
    if k :| 0 <= k < |t| && t[k] == '.' {
      var whole, frac := t[..k], t[k + 1..];
      assert AllDigits(whole) by {
        forall x | 0 <= x < |whole| ensures IsDigit(whole[x]) { assert whole[x] == t[x]; }
      }
      assert AllDigits(frac) by {
        forall x | 0 <= x < |frac| ensures IsDigit(frac[x]) { assert frac[x] == t[k + 1 + x]; }
      }
      assert t == whole + ['.'] + frac;
      DecimalWithoutDotZero(whole, frac);
    } else {
      assert NoDotZero(t);
      RemoveDotZeroKeeps(t);
    }
  }

  /** Deleting ".0" from `whole.frac` leaves a numeral. */
  lemma {:induction false} DecimalWithoutDotZero(whole: string, frac: string)
    requires |whole| > 0 && AllDigits(whole) && |frac| > 0 && AllDigits(frac)
    requires IsNumeral(whole + ['.'] + frac)
    ensures IsNumeral(RemoveDotZero(whole + ['.'] + frac))
  {
    var tail := ['.'] + frac;
    assert whole + ['.'] + frac == whole + tail;
    assert whole[|whole| - 1] != '.';
    RemoveDotZeroAppend(whole, tail);
    DigitsAreNumeral(whole);
    RemoveDotZeroKeeps(whole);
    if frac[0] == '0' {
      DotZeroDropped(frac);
      DigitsJoin(whole, frac[1..]);
    } else {
      assert tail[1..] == frac;
      DigitsAreNumeral(frac);
      RemoveDotZeroKeeps(frac);
      assert RemoveDotZero(tail) == tail;
    }
  }

  /** A ".0" in front of digits is deleted and the digits after it kept. */
  lemma DotZeroDropped(frac: string)
    requires |frac| > 0 && frac[0] == '0' && AllDigits(frac)
    ensures RemoveDotZero(['.'] + frac) == frac[1..]
  {
    var tail := ['.'] + frac;
    assert tail[2..] == frac[1..];
    var rest := frac[1..];
    assert NoDotZero(rest) by {
      assert forall x :: 0 <= x < |rest| ==> rest[x] == frac[x + 1];
    }
    RemoveDotZeroKeeps(rest);
  }

  /** Digits followed by digits are a numeral. */
  lemma DigitsJoin(a: string, b: string)
    requires |a| > 0 && AllDigits(a) && AllDigits(b)
    ensures IsNumeral(a + b)
  {
    assert AllDigits(a + b) by {
      forall x | 0 <= x < |a + b| ensures IsDigit((a + b)[x]) {
        if x < |a| { assert (a + b)[x] == a[x]; } else { assert (a + b)[x] == b[x - |a|]; }
      }
    }
    DigitsAreNumeral(a + b);
  }

  /** Two numerals joined by '-' make a value. */
  lemma RangeIsValue(low: string, high: string)
    requires IsNumeral(low) && IsNumeral(high)
    ensures IsValue(low + ['-'] + high)
  {
    var r := low + ['-'] + high;
    assert r[..|low|] == low && r[|low| + 1..] == high;
    assert DashSplits(r, |low|);
  }

  /** Deleting ".0" from a value leaves a value. */
  lemma {:induction false} ValueWithoutDotZero(t: string)
    requires IsValue(t)
    ensures IsValue(RemoveDotZero(t))
  {
    if IsNumeral(t) {
      NumeralWithoutDotZero(t);
    } else {
      var k: nat :| DashSplits(t, k);
      assert t == t[..k] + ['-'] + t[k + 1..];
      RangeWithoutDotZero(t[..k], t[k + 1..]);
    }
  }

  /** Deleting ".0" from two numerals joined by '-' leaves a value. */
  lemma RangeWithoutDotZero(low: string, high: string)
    requires IsNumeral(low) && IsNumeral(high)
    ensures IsValue(RemoveDotZero(low + ['-'] + high))
  {
    assert low[|low| - 1] != '.';
    RemoveDotZeroAround(low, '-', high);
    NumeralWithoutDotZero(low);
    NumeralWithoutDotZero(high);
    RangeIsValue(RemoveDotZero(low), RemoveDotZero(high));
  }

  /** In a description of the simplified form the focal pattern captures the focal part. */
  lemma {:induction false} FocalOfCanonical(focal: string, aperture: string)
    requires IsValue(focal) && IsValue(aperture)
    ensures FocalLength(focal + " f/" + aperture) == Some(focal)
  {
    var o := focal + " f/" + aperture;
    ValueShape(focal);
    assert o[0] == focal[0];
    assert FirstDigit(o, 0) == Some(0);
    assert o[0..|focal|] == focal;
    assert o[|focal|] == ' ';
    ValueEndAt(o, 0, focal);
  }

  /** In a description of the simplified form the aperture pattern captures the aperture part. */
  lemma {:induction false} FNumberOfCanonical(focal: string, aperture: string)
    requires IsValue(focal) && IsValue(aperture)
    ensures FNumber(focal + " f/" + aperture) == Some(aperture)
  {
    var o := focal + " f/" + aperture;
    var n := |focal|;
    ValueShape(focal);
    ValueShape(aperture);
    MarkerOfCanonical(focal, aperture);
    assert o[n + 3..n + 3 + |aperture|] == aperture;
    ValueEndAt(o, n + 3, aperture);
  }

  /** The first marker of `focal f/aperture` is the "f/" written between them. */
  lemma MarkerOfCanonical(focal: string, aperture: string)
    requires forall k :: 0 <= k < |focal| ==> IsDigit(focal[k]) || focal[k] == '.' || focal[k] == '-'
    requires |aperture| > 0 && IsDigit(aperture[0])
    ensures FirstMarker(focal + " f/" + aperture, 0) == Some(|focal| + 1)
  {
    var o := focal + " f/" + aperture;
    var n := |focal|;
    assert o[n] == ' ' && o[n + 1] == 'f' && o[n + 2] == '/' && o[n + 3] == aperture[0];
    assert MarkerAt(o, n + 1);
    forall q | 0 <= q <= n ensures !MarkerAt(o, q) && o[q] != '\n' {
      if q < n {
        assert o[q] == focal[q];
      }
    }
  }

  /** A description already in the simplified form is its own simplification. */
  lemma {:induction false} SimplifyCanonical(focal: string, aperture: string)
    requires IsValue(focal) && IsValue(aperture)
    requires NoDotZero(focal + " f/" + aperture)
    ensures SimplifyLensModel(focal + " f/" + aperture) == Some(focal + " f/" + aperture)
  {
    FocalOfCanonical(focal, aperture);
    FNumberOfCanonical(focal, aperture);
    RemoveDotZeroKeeps(focal + " f/" + aperture);
  }

  /** Simplifying a simplified description gives it back unchanged. */
  lemma {:induction false} SimplifyIdempotent(s: string)
    requires SimplifyLensModel(s).Some?
    ensures SimplifyLensModel(SimplifyLensModel(s).value) == SimplifyLensModel(s)
  {
    var focal, aperture := FocalLength(s).value, FNumber(s).value;
    CapturesAreValues(s);
    ValueShape(focal);
    RemoveDotZeroAroundMarker(focal, aperture);
    ValueWithoutDotZero(focal);
    ValueWithoutDotZero(aperture);
    SimplifiedHasNoDotZero(s);
    var r := SimplifyLensModel(s).value;
    assert r == RemoveDotZero(focal) + " f/" + RemoveDotZero(aperture);
    SimplifyCanonical(RemoveDotZero(focal), RemoveDotZero(aperture));
  }

  // ---------------------------------------------------------------------------
  // Examples

  /** No value can continue past position `e` of `s`. */
  predicate ValueStopsAt(s: string, e: nat) {
    e >= |s| || !(IsDigit(s[e]) || s[e] == '.' || s[e] == '-')
  }

  /** The focal capture of `s` when its first digit starts the value `focal`. */
  lemma {:induction false} FocalLengthAt(s: string, p: nat, focal: string)
    requires p + |focal| <= |s| && s[p..p + |focal|] == focal && IsValue(focal) && ValueStopsAt(s, p + |focal|)
    requires forall q :: 0 <= q < p ==> !IsDigit(s[q]) && s[q] != '\n'
    ensures FocalLength(s) == Some(focal)
  {
    ValueEndAt(s, p, focal);
    assert FirstDigit(s, 0) == Some(p);
  }

  /** The aperture capture of `s` when its earliest marker is followed by the value `aperture`. */
  lemma {:induction false} FNumberAt(s: string, m: nat, aperture: string)
    requires MarkerAt(s, m) && forall q :: 0 <= q < m ==> !MarkerAt(s, q) && s[q] != '\n'
    requires var a := MarkerEnd(s, m);
      a + |aperture| <= |s| && s[a..a + |aperture|] == aperture && IsValue(aperture) && ValueStopsAt(s, a + |aperture|)
    ensures FNumber(s) == Some(aperture)
  {
    ValueEndAt(s, MarkerEnd(s, m), aperture);
    assert FirstMarker(s, 0) == Some(m);
  }
}
