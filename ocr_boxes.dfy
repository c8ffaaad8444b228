/** OCR character boxes: intersection over union, the stable sorts the
    parser uses, and the greedy overlap filter. Coordinates and confidences
    are exact reals. */
module OcrBoxes {

  import opened Wrappers
  import opened Sequences

  /** A detected character: its corners, confidence and class (0-9 are
      digits, 10 is the TUNISIA logo). */
  datatype Box = Box(x1: real, y1: real, x2: real, y2: real, confidence: real, classId: nat)

  /** Boxes above this IoU with an already kept box are dropped. */
  const OverlapThreshold: real := 0.3

  function Max(a: real, b: real): real { if a >= b then a else b }
  function Min(a: real, b: real): real { if a <= b then a else b }

  /** Corners in order, as the detector produces them. */
  predicate WellFormed(b: Box)
  {
    b.x1 <= b.x2 && b.y1 <= b.y2
  }

  /** The pixel area of a box, counting both edge pixels. */
  function Area(b: Box): real
  {
    (b.x2 - b.x1 + 1.0) * (b.y2 - b.y1 + 1.0)
  }

  /** The overlap of two pixel ranges, clamped at 0. */
  function Span(lo1: real, hi1: real, lo2: real, hi2: real): real
  {
    Max(0.0, Min(hi1, hi2) - Max(lo1, lo2) + 1.0)
  }

  /** The intersection area, clamped at 0 in each dimension. */
  function Intersection(a: Box, b: Box): real
  {
    Span(a.x1, a.x2, b.x1, b.x2) * Span(a.y1, a.y2, b.y1, b.y2)
  }

  /** Intersection over union; none when the union is zero, where the
      division raises an error. */
  function Iou(a: Box, b: Box): Option<real>
  {
    var union := Area(a) + Area(b) - Intersection(a, b);
    if union == 0.0 then None else Some(Intersection(a, b) / union)
  }

  lemma MulMono(a: real, b: real, c: real, d: real)
    requires 0.0 <= a <= b && 0.0 <= c <= d
    ensures 0.0 <= a * c <= b * d
  {
    assert a * c <= b * c;
    assert b * c <= b * d;
  }

  /** A well-formed box covers at least one pixel. */
  lemma AreaAtLeastOne(b: Box)
    requires WellFormed(b)
    ensures Area(b) >= 1.0
  {
    var w, h := b.x2 - b.x1 + 1.0, b.y2 - b.y1 + 1.0;
    assert Area(b) == w * h;
    MulMono(1.0, w, 1.0, h);
  }

  /** The clamped overlap of two ranges is never negative and never
      exceeds either range. */
  lemma SpanBounds(lo1: real, hi1: real, lo2: real, hi2: real)
    requires lo1 <= hi1 && lo2 <= hi2
    ensures 0.0 <= Span(lo1, hi1, lo2, hi2) <= hi1 - lo1 + 1.0
    ensures Span(lo1, hi1, lo2, hi2) <= hi2 - lo2 + 1.0
  {
  }

  /** The product of two clamped overlaps is bounded by the product of the
      first ranges' lengths. */
  lemma SpanProductBound(lo1: real, hi1: real, lo2: real, hi2: real, lo3: real, hi3: real, lo4: real, hi4: real)
    requires lo1 <= hi1 && lo2 <= hi2 && lo3 <= hi3 && lo4 <= hi4
    ensures 0.0 <= Span(lo1, hi1, lo2, hi2) * Span(lo3, hi3, lo4, hi4) <= (hi1 - lo1 + 1.0) * (hi3 - lo3 + 1.0)
  {
    SpanBounds(lo1, hi1, lo2, hi2);
    SpanBounds(lo3, hi3, lo4, hi4);
    MulMono(Span(lo1, hi1, lo2, hi2), hi1 - lo1 + 1.0, Span(lo3, hi3, lo4, hi4), hi3 - lo3 + 1.0);
  }

  /** The clamped intersection never exceeds the first box's area. */
  lemma IntersectionAtMostArea(a: Box, b: Box)
    requires WellFormed(a) && WellFormed(b)
    ensures 0.0 <= Intersection(a, b) <= Area(a)
  {
    SpanProductBound(a.x1, a.x2, b.x1, b.x2, a.y1, a.y2, b.y1, b.y2);
  }

  /** The clamped intersection is never negative and never exceeds either
      box's area. */
  lemma IntersectionBounds(a: Box, b: Box)
    requires WellFormed(a) && WellFormed(b)
    ensures 0.0 <= Intersection(a, b) <= Area(a)
    ensures Intersection(a, b) <= Area(b)
  {
    IntersectionAtMostArea(a, b);
    IntersectionAtMostArea(b, a);
    assert Intersection(a, b) == Intersection(b, a);
  }

  lemma RatioBounds(x: real, y: real)
    requires 0.0 <= x <= y && y > 0.0
    ensures 0.0 <= x / y <= 1.0
  {
  }

  /** IoU does not depend on the order of its arguments. */
  lemma IouSymmetric(a: Box, b: Box)
    ensures Iou(a, b) == Iou(b, a)
  {
    assert Intersection(a, b) == Intersection(b, a);
  }

  /** For well-formed boxes the IoU is defined and lies between 0 and 1. */
  lemma IouBounds(a: Box, b: Box)
    requires WellFormed(a) && WellFormed(b)
    ensures Iou(a, b).Some? && 0.0 <= Iou(a, b).value <= 1.0
  {
    IntersectionBounds(a, b);
    AreaAtLeastOne(b);
    var inter := Intersection(a, b);
    var union := Area(a) + Area(b) - inter;
    RatioBounds(inter, union);
  }

  /** A well-formed box has IoU exactly 1 with itself. */
  lemma IouSelf(a: Box)
    requires WellFormed(a)
    ensures Iou(a, a) == Some(1.0)
  {
    assert Intersection(a, a) == Area(a);
    AreaAtLeastOne(a);
    var area := Area(a);
    assert area + area - area == area;
    assert area / area == 1.0;
  }

  /** `b` overlaps `f` beyond the threshold. */
  predicate Overlapping(b: Box, f: Box)
  {
    Iou(b, f).Some? && Iou(b, f).value > OverlapThreshold
  }

  /** `b` is compared with `f` without error and does not overlap it. */
  predicate Clear(b: Box, f: Box)
  {
    Iou(b, f).Some? && Iou(b, f).value <= OverlapThreshold
  }

  /** Whether `b` overlaps any of `kept`, scanning in order and stopping at
      the first overlap; none when a comparison raises before that. */
  function AnyOverlap(b: Box, kept: seq<Box>): Option<bool>
  {
    if kept == [] then Some(false)
    else match Iou(b, kept[0])
      case None => None
      case Some(v) => if v > OverlapThreshold then Some(true) else AnyOverlap(b, kept[1..])
  }

  /** A true answer names an overlapping box; a false one means every box
      was compared without error and none overlaps. */
  lemma {:induction false} AnyOverlapSpec(b: Box, kept: seq<Box>)
    ensures AnyOverlap(b, kept) == Some(true) ==> exists j :: 0 <= j < |kept| && Overlapping(b, kept[j])
    ensures AnyOverlap(b, kept) == Some(false) <==> forall j :: 0 <= j < |kept| ==> Clear(b, kept[j])
  {
    if kept != [] {
      AnyOverlapSpec(b, kept[1..]);
      assert forall j :: 1 <= j < |kept| ==> kept[j] == kept[1..][j - 1];
      if AnyOverlap(b, kept) == Some(true) && Iou(b, kept[0]).value <= OverlapThreshold {
        var j :| 0 <= j < |kept[1..]| && Overlapping(b, kept[1..][j]);
        assert Overlapping(b, kept[j + 1]);
      }
    }
  }

  /** With well-formed boxes the scan never raises. */
  lemma {:induction false} AnyOverlapTotal(b: Box, kept: seq<Box>)
    requires WellFormed(b) && forall j :: 0 <= j < |kept| ==> WellFormed(kept[j])
    ensures AnyOverlap(b, kept).Some?
  {
    if kept != [] {
      IouBounds(b, kept[0]);
      AnyOverlapTotal(b, kept[1..]);
    }
  }

  /** The greedy filter over boxes in order: a box is kept unless it
      overlaps a box kept before it; none when a comparison raises. */
  function Greedy(boxes: seq<Box>): Option<seq<Box>>
  {
    if boxes == [] then Some([])
    else
      var before := Greedy(boxes[..|boxes| - 1]);
      var b := boxes[|boxes| - 1];
      if before.None? then None
      else match AnyOverlap(b, before.value)
        case None => None
        case Some(hit) => if hit then before else Some(before.value + [b])
  }

  /** Whether a prefix of the input already failed: then so does the whole. */
  lemma {:induction false} GreedyFailureSticks(boxes: seq<Box>, i: nat)
    requires i <= |boxes| && Greedy(boxes[..i]).None?
    ensures Greedy(boxes).None?
    decreases |boxes| - i
  {
    if i < |boxes| {
      assert boxes[..i + 1][..i] == boxes[..i];
      GreedyFailureSticks(boxes, i + 1);
    } else {
      assert boxes[..i] == boxes;
    }
  }

  /** The filter of a prefix is a prefix of the filter of the whole. */
  lemma {:induction false} GreedyPrefix(boxes: seq<Box>, i: nat)
    requires i <= |boxes| && Greedy(boxes).Some?
    ensures Greedy(boxes[..i]).Some?
    ensures Greedy(boxes[..i]).value <= Greedy(boxes).value
    decreases |boxes| - i
  {
    if i == |boxes| {
      assert boxes[..i] == boxes;
    } else {
      var n := |boxes| - 1;
      assert boxes[..n][..i] == boxes[..i];
      GreedyPrefix(boxes[..n], i);
    }
  }

  /** The kept boxes are an order-preserving subsequence of the input. */
  lemma {:induction false} GreedySubsequence(boxes: seq<Box>)
    requires Greedy(boxes).Some?
    ensures IsSubsequence(Greedy(boxes).value, boxes)
  {
    if boxes != [] {
      var n := |boxes| - 1;
      GreedySubsequence(boxes[..n]);
      var before := Greedy(boxes[..n]).value;
      if Greedy(boxes).value != before {
        assert Greedy(boxes).value == before + [boxes[n]];
        assert (before + [boxes[n]])[..|before|] == before;
      } else if before != [] {
        SubsequenceDrop(before, boxes);
      }
    }
  }

  /** No two kept boxes overlap: each kept box was compared, without error,
      with every box kept before it and found clear. */
  lemma {:induction false} GreedyNoOverlap(boxes: seq<Box>)
    requires Greedy(boxes).Some?
    ensures var k := Greedy(boxes).value;
      forall i, j :: 0 <= i < j < |k| ==> Clear(k[j], k[i])
  {
    if boxes != [] {
      var n := |boxes| - 1;
      GreedyNoOverlap(boxes[..n]);
      var before := Greedy(boxes[..n]).value;
      AnyOverlapSpec(boxes[n], before);
    }
  }

  /** The scan keeps the box at index `i`: the kept list grows at that
      step. An exact duplicate of a kept box is a different index and is
      not kept. */
  predicate KeptAt(boxes: seq<Box>, i: nat)
    requires i < |boxes|
  {
    && Greedy(boxes[..i]).Some? && Greedy(boxes[..i + 1]).Some?
    && |Greedy(boxes[..i + 1]).value| > |Greedy(boxes[..i]).value|
  }

  /** Whether the scan keeps index `m` does not depend on what follows. */
  lemma KeptAtPrefix(boxes: seq<Box>, i: nat, m: nat)
    requires m < i <= |boxes|
    ensures KeptAt(boxes[..i], m) == KeptAt(boxes, m)
  {
    assert boxes[..i][..m] == boxes[..m] && boxes[..i][..m + 1] == boxes[..m + 1];
  }

  /** One step of the scan: a kept index appends its box; an index not
      kept leaves the list as it was, because the box overlaps. */
  lemma GreedyStep(boxes: seq<Box>, i: nat)
    requires i < |boxes| && Greedy(boxes[..i]).Some? && Greedy(boxes[..i + 1]).Some?
    ensures var before, after := Greedy(boxes[..i]).value, Greedy(boxes[..i + 1]).value;
      if |after| > |before| then after == before + [boxes[i]]
      else after == before && AnyOverlap(boxes[i], before) == Some(true)
  {
    var upto := boxes[..i + 1];
    assert upto[..|upto| - 1] == boxes[..i] && upto[|upto| - 1] == boxes[i];
  }

  /** A box kept at some index is in the final kept list. */
  lemma KeptAtMember(boxes: seq<Box>, i: nat)
    requires Greedy(boxes).Some? && i < |boxes| && KeptAt(boxes, i)
    ensures boxes[i] in Greedy(boxes).value
  {
    GreedyStep(boxes, i);
    GreedyPrefix(boxes, i + 1);
    assert boxes[i] in Greedy(boxes[..i + 1]).value;
  }

  /** Every kept box was kept at some index of the input. */
  lemma {:induction false} KeptOrigin(boxes: seq<Box>, j: nat)
    requires Greedy(boxes).Some? && j < |Greedy(boxes).value|
    ensures exists m :: 0 <= m < |boxes| && KeptAt(boxes, m) && boxes[m] == Greedy(boxes).value[j]
  {
    var n := |boxes| - 1;
    var before := Greedy(boxes[..n]).value;
    assert boxes[..n + 1] == boxes;
    if j < |before| {
      KeptOrigin(boxes[..n], j);
      var m :| 0 <= m < n && KeptAt(boxes[..n], m) && boxes[..n][m] == before[j];
      KeptAtPrefix(boxes, n, m);
      assert Greedy(boxes).value[j] == before[j];
    } else {
      assert Greedy(boxes).value == before + [boxes[n]];
      assert KeptAt(boxes, n);
    }
  }

  /** The box at index `i`, when the scan does not keep it, overlaps a box
      at an earlier index that the scan kept. */
  lemma DroppedOverlapAt(boxes: seq<Box>, i: nat)
    requires Greedy(boxes).Some? && i < |boxes| && !KeptAt(boxes, i)
    ensures exists m :: 0 <= m < i && KeptAt(boxes, m) && boxes[m] in Greedy(boxes).value && Overlapping(boxes[i], boxes[m])
  {
    GreedyPrefix(boxes, i + 1);
    GreedyPrefix(boxes, i);
    // `boxes[i]` was not appended, so the scan found an overlap.
    GreedyStep(boxes, i);
    var before := Greedy(boxes[..i]).value;
    AnyOverlapSpec(boxes[i], before);
    var j :| 0 <= j < |before| && Overlapping(boxes[i], before[j]);
    KeptOrigin(boxes[..i], j);
    var m :| 0 <= m < i && KeptAt(boxes[..i], m) && boxes[..i][m] == before[j];
    KeptAtPrefix(boxes, i, m);
    KeptAtMember(boxes, m);
  }

  /** Every index the scan does not keep holds a box that overlaps a box
      at an earlier index that the scan kept; every index it keeps ends up
      in the kept list. */
  lemma GreedyDroppedOverlap(boxes: seq<Box>)
    requires Greedy(boxes).Some?
    ensures var k := Greedy(boxes).value;
      forall i :: 0 <= i < |boxes| ==>
        if KeptAt(boxes, i) then boxes[i] in k
        else exists m :: 0 <= m < i && KeptAt(boxes, m) && boxes[m] in k && Overlapping(boxes[i], boxes[m])
  {
    forall i | 0 <= i < |boxes|
      ensures if KeptAt(boxes, i) then boxes[i] in Greedy(boxes).value
        else exists m :: 0 <= m < i && KeptAt(boxes, m) && boxes[m] in Greedy(boxes).value && Overlapping(boxes[i], boxes[m])
    {
      if KeptAt(boxes, i) {
        KeptAtMember(boxes, i);
      } else {
        DroppedOverlapAt(boxes, i);
      }
    }
  }

  /** With well-formed boxes the filter never raises. */
  lemma {:induction false} GreedyTotal(boxes: seq<Box>)
    requires forall i :: 0 <= i < |boxes| ==> WellFormed(boxes[i])
    ensures Greedy(boxes).Some?
  {
    if boxes != [] {
      var n := |boxes| - 1;
      GreedyTotal(boxes[..n]);
      var before := Greedy(boxes[..n]).value;
      GreedySubsequence(boxes[..n]);
      SubsequenceMembers(before, boxes[..n]);
      assert forall j :: 0 <= j < |before| ==> before[j] in boxes[..n];
      AnyOverlapTotal(boxes[n], before);
    }
  }

  /** The two orders the parser sorts by. */
  datatype SortKey = ByConfidenceDesc | ByX1

  /** Sorting ascending by this number is the order the key names. */
  function KeyOf(k: SortKey, b: Box): real
  {
    match k
    case ByConfidenceDesc => -b.confidence
    case ByX1 => b.x1
  }

  predicate SortedBy(k: SortKey, s: seq<Box>)
  {
    forall i, j :: 0 <= i < j < |s| ==> KeyOf(k, s[i]) <= KeyOf(k, s[j])
  }

  /** Inserts `x` before the first element whose key is not smaller, so
      that `x` stays ahead of the equal keys that followed it. */
  function Insert(k: SortKey, x: Box, t: seq<Box>): seq<Box>
  {
    if t == [] || KeyOf(k, x) <= KeyOf(k, t[0]) then [x] + t
    else [t[0]] + Insert(k, x, t[1..])
  }

  /** A stable sort by the key. */
  function SortBy(k: SortKey, s: seq<Box>): seq<Box>
  {
    if s == [] then [] else Insert(k, s[0], SortBy(k, s[1..]))
  }

  lemma {:induction false} InsertMembers(k: SortKey, x: Box, t: seq<Box>)
    ensures multiset(Insert(k, x, t)) == multiset(t) + multiset{x}
    ensures |Insert(k, x, t)| == |t| + 1
  {
    if t != [] && KeyOf(k, x) > KeyOf(k, t[0]) {
      InsertMembers(k, x, t[1..]);
      assert t == [t[0]] + t[1..];
    }
  }

  /** A lower bound on the keys of `x` and of `t` bounds the keys after
      insertion. */
  lemma {:induction false} InsertLowerBound(k: SortKey, lo: real, x: Box, t: seq<Box>)
    requires lo <= KeyOf(k, x)
    requires forall i :: 0 <= i < |t| ==> lo <= KeyOf(k, t[i])
    ensures forall i :: 0 <= i < |Insert(k, x, t)| ==> lo <= KeyOf(k, Insert(k, x, t)[i])
  {
    if t != [] && KeyOf(k, x) > KeyOf(k, t[0]) {
      InsertLowerBound(k, lo, x, t[1..]);
    }
  }

  lemma {:induction false} InsertSpec(k: SortKey, x: Box, t: seq<Box>)
    requires SortedBy(k, t)
    ensures SortedBy(k, Insert(k, x, t))
    ensures multiset(Insert(k, x, t)) == multiset(t) + multiset{x}
    ensures |Insert(k, x, t)| == |t| + 1
  {
    InsertMembers(k, x, t);
    if t != [] && KeyOf(k, x) > KeyOf(k, t[0]) {
      var rest := t[1..];
      assert SortedBy(k, rest);
      InsertSpec(k, x, rest);
      InsertLowerBound(k, KeyOf(k, t[0]), x, rest);
      assert Insert(k, x, t) == [t[0]] + Insert(k, x, rest);
    }
  }

  /** The sort orders by the key and is a permutation of its input. */
  lemma {:induction false} SortBySpec(k: SortKey, s: seq<Box>)
    ensures SortedBy(k, SortBy(k, s))
    ensures multiset(SortBy(k, s)) == multiset(s)
    ensures |SortBy(k, s)| == |s|
  {
    if s != [] {
      SortBySpec(k, s[1..]);
      InsertSpec(k, s[0], SortBy(k, s[1..]));
      assert s == [s[0]] + s[1..];
    }
  }

  /** A subsequence of a sorted sequence is sorted. */
  lemma {:induction false} SubsequenceSorted(k: SortKey, a: seq<Box>, b: seq<Box>)
    requires IsSubsequence(a, b) && SortedBy(k, b)
    ensures SortedBy(k, a)
    decreases |b|
  {
    if a != [] {
      var a', b' := a[..|a| - 1], b[..|b| - 1];
      assert SortedBy(k, b');
      if a[|a| - 1] == b[|b| - 1] && IsSubsequence(a', b') {
        SubsequenceSorted(k, a', b');
        SubsequenceMembers(a', b');
        forall i | 0 <= i < |a'| ensures KeyOf(k, a'[i]) <= KeyOf(k, a[|a| - 1]) {
          assert a'[i] in a';
          var m :| 0 <= m < |b'| && b'[m] == a'[i];
          assert b[m] == a'[i];
        }
      } else {
        SubsequenceSorted(k, a, b');
      }
    }
  }

  /** The filter loop of the parser: boxes in the given order, each kept
      unless it overlaps an already kept one; none when a comparison
      raises. */
  method FilterOverlaps(boxes: seq<Box>) returns (r: Option<seq<Box>>)
    ensures r == Greedy(boxes)
  {
    var filtered: seq<Box> := [];
    var i := 0;
    while i < |boxes|
      invariant 0 <= i <= |boxes|
      invariant Greedy(boxes[..i]) == Some(filtered)
    {
      var b := boxes[i];
      assert boxes[..i + 1][..i] == boxes[..i] && boxes[..i + 1][i] == b;
      var j := 0;
      var hit := false;
      while j < |filtered| && !hit
        invariant 0 <= j <= |filtered|
        invariant AnyOverlap(b, filtered) == if hit then Some(true) else AnyOverlap(b, filtered[j..])
      {
        var v := Iou(b, filtered[j]);
        if v.None? {
          GreedyFailureSticks(boxes, i + 1);
          return None;
        }
        assert filtered[j..][1..] == filtered[j + 1..];
        if v.value > OverlapThreshold {
          hit := true;
        }
        j := j + 1;
      }
      if !hit {
        filtered := filtered + [b];
      }
      i := i + 1;
    }
    assert boxes[..i] == boxes;
    r := Some(filtered);
  }
}
