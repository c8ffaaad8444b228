/** Assembly of the plate string from the kept OCR boxes, around the
    TUNISIA logo, and the step of the video loop that stores the result. */
module PlateParser {

  import opened Wrappers
  import opened Sequences
  import opened OcrBoxes
  import opened LatestDetections

  /** The class of the TUNISIA logo box. */
  const LogoClass: nat := 10

  /** The label sent for a logo box. */
  const LogoLabel: string := "TUNISIA"

  /** The Arabic word for Tunisia written between the digit groups. */
  const Tunis: string := "\U{062A}\U{0648}\U{0646}\U{0633}"

  predicate IsDigitChar(c: char)
  {
    '0' <= c <= '9'
  }

  /** The decimal digits of a natural number. */
  function NatToString(n: nat): (s: string)
    ensures |s| >= 1
    ensures forall i :: 0 <= i < |s| ==> IsDigitChar(s[i])
  {
    if n < 10 then [('0' as int + n) as char]
    else NatToString(n / 10) + [('0' as int + n % 10) as char]
  }

  /** The number a string of decimal digits denotes, most significant
      digit first. */
  function DigitsValue(s: string): nat
    requires forall i :: 0 <= i < |s| ==> IsDigitChar(s[i])
  {
    if s == [] then 0
    else
      assert IsDigitChar(s[|s| - 1]);
      DigitsValue(s[..|s| - 1]) * 10 + (s[|s| - 1] as int - '0' as int)
  }

  /** `NatToString(n)` is the decimal representation of `n`, as Python's
      `str` writes it: it denotes `n` and has no leading zero. */
  lemma {:induction false} NatToStringValue(n: nat)
    ensures DigitsValue(NatToString(n)) == n
    ensures |NatToString(n)| > 1 ==> NatToString(n)[0] != '0'
    ensures NatToString(n)[0] == '0' <==> n == 0
  {
    if n >= 10 {
      var s := NatToString(n);
      NatToStringValue(n / 10);
      assert s[..|s| - 1] == NatToString(n / 10);
      assert s[0] == NatToString(n / 10)[0];
    }
  }

  /** The `label` of a formatted box. */
  function Label(b: Box): string
  {
    if b.classId == LogoClass then LogoLabel else NatToString(b.classId)
  }

  /** A box's label is TUNISIA exactly when it is the logo class; a digit
      class is labelled with its single digit. */
  lemma LabelSpec(b: Box)
    ensures Label(b) == LogoLabel <==> b.classId == LogoClass
    ensures b.classId < 10 ==> Label(b) == [('0' as int + b.classId) as char]
  {
    if b.classId != LogoClass {
      assert !IsDigitChar(LogoLabel[0]);
      assert IsDigitChar(Label(b)[0]);
    }
  }

  /** A box as reported to the frontend. */
  datatype FormattedBox = FormattedBox(bbox: seq<real>, confidence: real, classId: nat, labelText: string)

  function Format(b: Box): FormattedBox
  {
    FormattedBox([b.x1, b.y1, b.x2, b.y2], b.confidence, b.classId, Label(b))
  }

  /** The formatting loop: one formatted box per kept box, in order. */
  method FormatBoxes(kept: seq<Box>) returns (r: seq<FormattedBox>)
    ensures |r| == |kept|
    ensures forall i :: 0 <= i < |kept| ==> r[i] == Format(kept[i])
  {
    r := [];
    for i := 0 to |kept|
      invariant |r| == i
      invariant forall j :: 0 <= j < i ==> r[j] == Format(kept[j])
    {
      r := r + [Format(kept[i])];
    }
  }

  /** The selections the assembly takes of the kept boxes. */
  datatype Side = Logos | LeftOf(x: real) | RightOf(x: real)

  predicate OnSide(side: Side, b: Box)
  {
    match side
    case Logos => b.classId == LogoClass
    case LeftOf(x) => b.classId != LogoClass && b.x1 < x
    case RightOf(x) => b.classId != LogoClass && b.x1 > x
  }

  /** The kept boxes on a side, in their order. */
  function Select(side: Side, bs: seq<Box>): seq<Box>
  {
    if bs == [] then []
    else (if OnSide(side, bs[0]) then [bs[0]] else []) + Select(side, bs[1..])
  }

  /** A selection holds every box on the side, as often as the input does,
      and nothing else. */
  lemma {:induction false} SelectSpec(side: Side, bs: seq<Box>)
    ensures forall b :: multiset(Select(side, bs))[b] == if OnSide(side, b) then multiset(bs)[b] else 0
  {
    if bs != [] {
      SelectSpec(side, bs[1..]);
      assert bs == [bs[0]] + bs[1..];
    }
  }

  lemma SelectMembers(side: Side, bs: seq<Box>)
    ensures forall b :: b in Select(side, bs) <==> b in bs && OnSide(side, b)
  {
    SelectSpec(side, bs);
    forall b ensures b in Select(side, bs) <==> b in bs && OnSide(side, b) {
      assert b in Select(side, bs) <==> b in multiset(Select(side, bs));
      assert b in bs <==> b in multiset(bs);
    }
  }

  lemma {:induction false} SelectNone(side: Side, bs: seq<Box>)
    requires forall i :: 0 <= i < |bs| ==> !OnSide(side, bs[i])
    ensures Select(side, bs) == []
  {
    if bs != [] {
      SelectNone(side, bs[1..]);
    }
  }

  lemma {:induction false} SelectSome(side: Side, bs: seq<Box>, i: int)
    requires 0 <= i < |bs| && OnSide(side, bs[i])
    ensures Select(side, bs) != []
  {
    if !OnSide(side, bs[0]) {
      SelectSome(side, bs[1..], i - 1);
    }
  }

  /** A group is the digits of its selection in ascending x1 order. */
  lemma GroupSpec(side: Side, kept: seq<Box>)
    ensures exists g :: (SortedBy(ByX1, g) && multiset(g) == multiset(Select(side, kept))
      && Digits(SortBy(ByX1, Select(side, kept))) == Digits(g))
  {
    SortBySpec(ByX1, Select(side, kept));
  }

  /** The first selected logo is the first logo among the kept boxes. */
  lemma {:induction false} FirstLogo(bs: seq<Box>)
    requires Select(Logos, bs) != []
    ensures exists i :: (0 <= i < |bs| && bs[i] == Select(Logos, bs)[0]
      && bs[i].classId == LogoClass && forall j :: 0 <= j < i ==> bs[j].classId != LogoClass)
  {
    if bs[0].classId != LogoClass {
      FirstLogo(bs[1..]);
      var i :| 0 <= i < |bs[1..]| && bs[1..][i] == Select(Logos, bs[1..])[0]
        && bs[1..][i].classId == LogoClass && forall j :: 0 <= j < i ==> bs[1..][j].classId != LogoClass;
      assert bs[i + 1] == Select(Logos, bs)[0];
    }
  }

  /** The logo class is rendered as the Arabic word, other classes as
      their digits (the logo-less reading order). */
  function Glyph(b: Box): string
  {
    if b.classId == LogoClass then Tunis else NatToString(b.classId)
  }

  /** Glyphs of the boxes, concatenated. */
  function Texts(bs: seq<Box>): string
  {
    if bs == [] then "" else Glyph(bs[0]) + Texts(bs[1..])
  }

  /** Class digits of the boxes, concatenated. */
  function Digits(bs: seq<Box>): string
  {
    if bs == [] then "" else NatToString(bs[0].classId) + Digits(bs[1..])
  }

  /** The plate text with its left and right digit groups. */
  datatype Assembled = Assembled(plateText: string, left: string, right: string)

  /** Without a logo the boxes are read left to right and all of it is the
      left group; with one, the first kept logo is the anchor and the digit
      boxes strictly left and strictly right of its x1 form the groups. */
  function Assembly(kept: seq<Box>): Assembled
  {
    var logos := Select(Logos, kept);
    if logos == [] then
      var text := Texts(SortBy(ByX1, kept));
      Assembled(text, text, "")
    else
      var logoX := logos[0].x1;
      var left := Digits(SortBy(ByX1, Select(LeftOf(logoX), kept)));
      var right := Digits(SortBy(ByX1, Select(RightOf(logoX), kept)));
      Assembled(left + Tunis + right, left, right)
  }

  /** With no logo kept, the plate text is the glyphs of the kept boxes in
      ascending x1 order, the left group is the whole text and the right
      group is empty. */
  lemma AssemblyWithoutLogo(kept: seq<Box>)
    requires forall i :: 0 <= i < |kept| ==> kept[i].classId != LogoClass
    ensures var a := Assembly(kept);
      && a.left == a.plateText && a.right == ""
      && exists o :: SortedBy(ByX1, o) && multiset(o) == multiset(kept) && a.plateText == Texts(o)
  {
    SelectNone(Logos, kept);
    SortBySpec(ByX1, kept);
  }

  /** With a logo kept, the anchor is the first kept logo, the plate text is
      the left group, the Arabic word and the right group, and each group is
      the digits of the digit boxes strictly on its side of the anchor's x1,
      in ascending x1 order. */
  lemma AssemblyWithLogo(kept: seq<Box>)
    requires exists i :: 0 <= i < |kept| && kept[i].classId == LogoClass
    ensures Select(Logos, kept) != []
    ensures var a := Assembly(kept);
      var anchor := Select(Logos, kept)[0];
      && (exists i :: 0 <= i < |kept| && kept[i] == anchor && anchor.classId == LogoClass
                      && forall j :: 0 <= j < i ==> kept[j].classId != LogoClass)
      && a.plateText == a.left + Tunis + a.right
      && (exists l :: SortedBy(ByX1, l) && multiset(l) == multiset(Select(LeftOf(anchor.x1), kept)) && a.left == Digits(l))
      && (exists r :: SortedBy(ByX1, r) && multiset(r) == multiset(Select(RightOf(anchor.x1), kept)) && a.right == Digits(r))
  {
    var i :| 0 <= i < |kept| && kept[i].classId == LogoClass;
    SelectSome(Logos, kept, i);
    FirstLogo(kept);
    var x := Select(Logos, kept)[0].x1;
    var a := Assembly(kept);
    assert a.left == Digits(SortBy(ByX1, Select(LeftOf(x), kept)));
    assert a.right == Digits(SortBy(ByX1, Select(RightOf(x), kept)));
    GroupSpec(LeftOf(x), kept);
    GroupSpec(RightOf(x), kept);
  }

  /** Of the kept boxes, exactly the digit boxes whose x1 differs from the
      anchor's are in one of the two groups; a box at the anchor's x1 and
      any further logo are in neither. */
  lemma SidesPartition(kept: seq<Box>, x: real)
    ensures forall b :: b in kept && b.classId != LogoClass && b.x1 != x ==>
      b in Select(LeftOf(x), kept) || b in Select(RightOf(x), kept)
    ensures forall b :: b in kept && (b.classId == LogoClass || b.x1 == x) ==>
      b !in Select(LeftOf(x), kept) && b !in Select(RightOf(x), kept)
    ensures forall b :: b in Select(LeftOf(x), kept) ==> b.x1 < x && b.classId != LogoClass
    ensures forall b :: b in Select(RightOf(x), kept) ==> b.x1 > x && b.classId != LogoClass
  {
    SelectMembers(LeftOf(x), kept);
    SelectMembers(RightOf(x), kept);
  }

  /** When the kept boxes are in descending confidence order, the anchor is
      the most confident kept logo. */
  lemma AnchorIsMostConfident(kept: seq<Box>)
    requires SortedBy(ByConfidenceDesc, kept) && Select(Logos, kept) != []
    ensures forall b :: b in kept && b.classId == LogoClass ==> b.confidence <= Select(Logos, kept)[0].confidence
  {
    FirstLogo(kept);
    var i :| 0 <= i < |kept| && kept[i] == Select(Logos, kept)[0]
      && kept[i].classId == LogoClass && forall j :: 0 <= j < i ==> kept[j].classId != LogoClass;
    forall b | b in kept && b.classId == LogoClass ensures b.confidence <= kept[i].confidence {
      var j :| 0 <= j < |kept| && kept[j] == b;
      assert KeyOf(ByConfidenceDesc, kept[i]) <= KeyOf(ByConfidenceDesc, kept[j]) || j == i;
    }
  }

  /** With well-formed boxes the overlap filter over the sorted boxes
      never raises. */
  lemma ParseNeverRaises(boxes: seq<Box>)
    requires forall i :: 0 <= i < |boxes| ==> WellFormed(boxes[i])
    ensures Greedy(SortBy(ByConfidenceDesc, boxes)).Some?
  {
    var sorted := SortBy(ByConfidenceDesc, boxes);
    SortBySpec(ByConfidenceDesc, boxes);
    forall i | 0 <= i < |sorted| ensures WellFormed(sorted[i]) {
      assert sorted[i] in multiset(boxes);
      assert sorted[i] in boxes;
    }
    GreedyTotal(sorted);
  }

  /** The kept boxes are an order-preserving subsequence of the input
      sorted by descending confidence, hence in descending confidence order
      themselves; no two of them overlap; and every index of the sorted input
      that the scan does not keep holds a box overlapping a box the scan
      kept at an earlier index. */
  lemma KeptBoxesGuarantees(boxes: seq<Box>)
    requires Greedy(SortBy(ByConfidenceDesc, boxes)).Some?
    ensures var sorted := SortBy(ByConfidenceDesc, boxes);
      var kept := Greedy(sorted).value;
      && multiset(sorted) == multiset(boxes) && SortedBy(ByConfidenceDesc, sorted)
      && IsSubsequence(kept, sorted)
      && SortedBy(ByConfidenceDesc, kept)
      && (forall i, j :: 0 <= i < j < |kept| ==> Clear(kept[j], kept[i]))
      && (forall i :: 0 <= i < |sorted| ==>
            if KeptAt(sorted, i) then sorted[i] in kept
            else exists m :: 0 <= m < i && KeptAt(sorted, m) && sorted[m] in kept && Overlapping(sorted[i], sorted[m]))
  {
    var sorted := SortBy(ByConfidenceDesc, boxes);
    SortBySpec(ByConfidenceDesc, boxes);
    GreedySubsequence(sorted);
    SubsequenceSorted(ByConfidenceDesc, Greedy(sorted).value, sorted);
    GreedyNoOverlap(sorted);
    GreedyDroppedOverlap(sorted);
  }

  /** In the parser's own kept list, the anchor is the most confident
      kept logo. */
  lemma ParsedAnchorIsMostConfident(boxes: seq<Box>)
    requires Greedy(SortBy(ByConfidenceDesc, boxes)).Some?
    requires Select(Logos, Greedy(SortBy(ByConfidenceDesc, boxes)).value) != []
    ensures var kept := Greedy(SortBy(ByConfidenceDesc, boxes)).value;
      forall b :: b in kept && b.classId == LogoClass ==> b.confidence <= Select(Logos, kept)[0].confidence
  {
    KeptBoxesGuarantees(boxes);
    AnchorIsMostConfident(Greedy(SortBy(ByConfidenceDesc, boxes)).value);
  }

  /** What the parser returns. */
  datatype ParseResult = ParseResult(plateText: string, formatted: seq<FormattedBox>, left: string, right: string)

  /** The parser: sort by descending confidence, filter overlaps, format
      the kept boxes and assemble the text. None when the filter raises. */
  method ParsePlate(boxes: seq<Box>) returns (r: Option<ParseResult>)
    ensures var kept := Greedy(SortBy(ByConfidenceDesc, boxes));
      && (r.None? <==> kept.None?)
      && (r.Some? ==>
            && |r.value.formatted| == |kept.value|
            && (forall i :: 0 <= i < |kept.value| ==> r.value.formatted[i] == Format(kept.value[i]))
            && r.value.plateText == Assembly(kept.value).plateText
            && r.value.left == Assembly(kept.value).left
            && r.value.right == Assembly(kept.value).right)
  {
    var sorted := SortBy(ByConfidenceDesc, boxes);
    var filtered := FilterOverlaps(sorted);
    if filtered.None? {
      return None;
    }
    var formatted := FormatBoxes(filtered.value);
    var assembled := Assembly(filtered.value);
    r := Some(ParseResult(assembled.plateText, formatted, assembled.left, assembled.right));
  }

  /** The step of the video loop after OCR: with at least one box, parse
      and store the text for the camera key when it differs from the stored
      one. An error while parsing is caught and leaves the store as it was.
      `synthetic` stands for the rendered plate image of the two groups. */
  method RecordOcrResult(store: DetectionStore, key: string, boxes: seq<Box>, synthetic: string, now: int)
    modifies store
    ensures var kept := Greedy(SortBy(ByConfidenceDesc, boxes));
      if |boxes| == 0 || kept.None? then store.latest == old(store.latest)
      else
        var a := Assembly(kept.value);
        if a.plateText != StoredText(old(store.latest), key) then
          store.latest == old(store.latest)[key := LatestResult(a.plateText, PlateParts(a.left, a.right), JpegDataUrlPrefix + synthetic, now)]
        else store.latest == old(store.latest)
  {
    if |boxes| > 0 {
      var parsed := ParsePlate(boxes);
      if parsed.Some? {
        var p := parsed.value;
        store.Update(key, p.plateText, p.left, p.right, synthetic, now);
      }
    }
  }
}
