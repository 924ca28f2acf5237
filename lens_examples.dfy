/** Lens descriptions as cameras write them, and what simplifyLensModel makes of them. */
module LensExamples {
  import opened Wrappers
  import opened Text
  import opened LensModel

  /** Decimal focal lengths and aperture lose their ".0". */
  lemma ExampleDecimalRange(s: string)
    requires s == "70.0-200.0 mm f/4.0"
    ensures SimplifyLensModel(s) == Some("70-200 f/4")
  {
    DecimalRangeFocal(s);
    DecimalRangeAperture(s);
    DecimalRangeSimplified("70.0-200.0", "4.0");
  }

  lemma DecimalRangeFocal(s: string)
    requires s == "70.0-200.0 mm f/4.0"
    ensures FocalLength(s) == Some("70.0-200.0")
  {
    assert IsNumeral("70.0") && IsNumeral("200.0");
    RangeIsValue("70.0", "200.0");
    assert "70.0" + ['-'] + "200.0" == "70.0-200.0";
    assert s[0..10] == "70.0-200.0";
    FocalLengthAt(s, 0, "70.0-200.0");
  }

  lemma DecimalRangeAperture(s: string)
    requires s == "70.0-200.0 mm f/4.0"
    ensures FNumber(s) == Some("4.0")
  {
    assert IsNumeral("4.0");
    assert s[14] == 'f' && s[16..19] == "4.0";
    assert forall q :: 0 <= q < 14 ==> !MarkerAt(s, q) && s[q] != '\n';
    FNumberAt(s, 14, "4.0");
  }

  lemma DecimalRangeSimplified(focal: string, aperture: string)
    requires focal == "70.0-200.0" && aperture == "4.0"
    ensures RemoveDotZero(focal + " f/" + aperture) == "70-200 f/4"
  {
    assert "70" + ['-'] + "200" + " f/" + "4" == "70-200 f/4";
    assert RemoveDotZero("70.0") == "70";
    assert RemoveDotZero("200.0") == "200";
    assert RemoveDotZero("4.0") == "4";
    assert "70.0" + ['-'] + "200.0" == focal;
    RemoveDotZeroAroundMarker(focal, aperture);
    RemoveDotZeroAround("70.0", '-', "200.0");
  }

  /** An upper-case F marker before an aperture range. */
  lemma ExampleApertureRange(s: string)
    requires s == "18-55mm F3.5-5.6"
    ensures SimplifyLensModel(s) == Some("18-55 f/3.5-5.6")
  {
    ApertureRangeFocal(s);
    ApertureRangeAperture(s);
    ApertureRangeSimplified("18-55", "3.5-5.6");
  }

  lemma ApertureRangeSimplified(focal: string, aperture: string)
    requires focal == "18-55" && aperture == "3.5-5.6"
    ensures RemoveDotZero(focal + " f/" + aperture) == "18-55 f/3.5-5.6"
  {
    assert focal + " f/" + aperture == "18-55 f/3.5-5.6";
    assert NoDotZero("18-55 f/3.5-5.6");
    RemoveDotZeroKeeps("18-55 f/3.5-5.6");
  }

  lemma ApertureRangeFocal(s: string)
    requires s == "18-55mm F3.5-5.6"
    ensures FocalLength(s) == Some("18-55")
  {
    assert IsNumeral("18") && IsNumeral("55");
    RangeIsValue("18", "55");
    assert "18" + ['-'] + "55" == "18-55";
    assert s[0..5] == "18-55";
    FocalLengthAt(s, 0, "18-55");
  }

  lemma ApertureRangeAperture(s: string)
    requires s == "18-55mm F3.5-5.6"
    ensures FNumber(s) == Some("3.5-5.6")
  {
    assert IsNumeral("3.5") && IsNumeral("5.6");
    RangeIsValue("3.5", "5.6");
    assert "3.5" + ['-'] + "5.6" == "3.5-5.6";
    assert s[9..16] == "3.5-5.6";
    assert forall q :: 0 <= q < 8 ==> !MarkerAt(s, q) && s[q] != '\n';
    FNumberAt(s, 8, "3.5-5.6");
  }

  /** A prime lens. */
  lemma ExamplePrime(s: string)
    requires s == "50mm F1.4"
    ensures SimplifyLensModel(s) == Some("50 f/1.4")
  {
    assert "50" + " f/" + "1.4" == "50 f/1.4";
    assert NoDotZero("50 f/1.4");
    assert IsNumeral("50") && IsNumeral("1.4");
    assert s[0..2] == "50" && s[6..9] == "1.4";
    assert forall q :: 0 <= q < 5 ==> !MarkerAt(s, q) && s[q] != '\n';
    FocalLengthAt(s, 0, "50");
    FNumberAt(s, 5, "1.4");
    RemoveDotZeroKeeps("50 f/1.4");
  }

  /** A ".0" inside a number is deleted as well, which changes its value: 10.05 mm
      becomes 105. */
  lemma ExampleDotZeroInsideNumber(s: string)
    requires s == "10.05mm F2"
    ensures SimplifyLensModel(s) == Some("105 f/2")
  {
    assert "10.05" + " f/" + "2" == "10.05 f/2";
    assert IsNumeral("10.05") && IsNumeral("2");
    assert s[0..5] == "10.05" && s[9..10] == "2";
    assert forall q :: 0 <= q < 8 ==> !MarkerAt(s, q) && s[q] != '\n';
    FocalLengthAt(s, 0, "10.05");
    FNumberAt(s, 8, "2");
    InsideNumberSimplified("10.05", "2");
  }

  lemma InsideNumberSimplified(focal: string, aperture: string)
    requires focal == "10.05" && aperture == "2"
    ensures RemoveDotZero(focal + " f/" + aperture) == "105 f/2"
  {
    RemoveDotZeroAroundMarker(focal, aperture);
    assert focal[1..] == "0.05" && focal[2..] == ".05" && focal[2..][2..] == "5";
    assert RemoveDotZero("5") == "5";
    assert RemoveDotZero(focal[2..]) == "5";
    assert RemoveDotZero(focal) == "105";
    assert RemoveDotZero(aperture) == "2";
    assert "105" + " f/" + "2" == "105 f/2";
  }

  /** The aperture search is independent of the focal one: the 'F' of a lens-line prefix
      followed by the focal digits wins over the later real aperture. */
  lemma ExampleMarkerInPrefix(s: string)
    requires s == "XF18-55mmF2.8-4"
    ensures SimplifyLensModel(s) == Some("18-55 f/18-55")
  {
    assert "18-55" + " f/" + "18-55" == "18-55 f/18-55";
    assert NoDotZero("18-55 f/18-55");
    assert IsNumeral("18") && IsNumeral("55");
    RangeIsValue("18", "55");
    assert "18" + ['-'] + "55" == "18-55";
    assert s[0] == 'X' && s[1] == 'F' && s[2] == '1';
    assert s[2..7] == "18-55";
    assert MarkerAt(s, 1) && !MarkerAt(s, 0);
    FocalLengthAt(s, 2, "18-55");
    FNumberAt(s, 1, "18-55");
    RemoveDotZeroKeeps("18-55 f/18-55");
  }

  /** A description without digits makes the program exit. */
  lemma ExampleNoDigits(s: string)
    requires s == "Unknown Lens XYZ"
    ensures SimplifyLensModel(s) == None
  {
    assert !HasFocal(s) by {
      forall p | 0 <= p < |s| ensures !IsDigit(s[p]) {}
    }
    SimplifyFailsIff(s);
  }

  /** A digit after a newline is out of reach of the lazy prefix. */
  lemma ExampleSecondLine(s: string)
    requires s == "Lens\n50mm F2"
    ensures SimplifyLensModel(s) == None
  {
    assert !HasFocal(s) by {
      forall p | 0 <= p < |s| && IsDigit(s[p]) ensures !OnFirstLine(s, p) {
        assert s[4] == '\n';
      }
    }
    SimplifyFailsIff(s);
  }
}
