/** Surrogate-safe slicing of UTF-16 strings (src/utils.ts). A string is a sequence of code units;
    the reference is the sequence of code points it stands for, in the encoding of section 2.1 of
    RFC 2781. A surrogate without its partner stands for itself, as in JavaScript's own iteration
    over code points, so every string has a decoding and the main results hold of every string. */
module Utf16 {
  import opened Wrappers

  type CodeUnit = x: int | 0 <= x < 0x10000

  type CodePoint = x: int | 0 <= x < 0x110000

  predicate IsHighSurrogate(unit: CodeUnit) {
    0xd800 <= unit <= 0xdbff
  }

  predicate IsLowSurrogate(unit: CodeUnit) {
    0xdc00 <= unit <= 0xdfff
  }

  // ---- The encoding ----

  /** The code points a well-formed string is made of: no surrogates. */
  predicate IsScalar(point: CodePoint) {
    !(0xd800 <= point <= 0xdfff)
  }

  function Size(point: CodePoint): (n: nat) {
    if point < 0x10000 then 1 else 2
  }

  function EncodePoint(point: CodePoint): (units: seq<CodeUnit>)
    ensures |units| == Size(point)
  {
    if point < 0x10000 then [point]
    else [0xd800 + (point - 0x10000) / 0x400, 0xdc00 + (point - 0x10000) % 0x400]
  }

  function Encode(points: seq<CodePoint>): seq<CodeUnit> {
    if points == [] then [] else EncodePoint(points[0]) + Encode(points[1..])
  }

  predicate StartsPair(units: seq<CodeUnit>) {
    |units| >= 2 && IsHighSurrogate(units[0]) && IsLowSurrogate(units[1])
  }

  function FirstPoint(units: seq<CodeUnit>): (point: CodePoint)
    requires units != []
    ensures Size(point) == (if StartsPair(units) then 2 else 1) <= |units|
    ensures EncodePoint(point) == units[..Size(point)]
  {
    if StartsPair(units) then 0x10000 + 0x400 * (units[0] as int - 0xd800) + (units[1] as int - 0xdc00) else units[0]
  }

  function Decode(units: seq<CodeUnit>): seq<CodePoint> {
    if units == [] then [] else
      var point := FirstPoint(units);
      [point] + Decode(units[Size(point)..])
  }

  lemma EncodeOneMore(point: CodePoint, points: seq<CodePoint>)
    ensures Encode([point] + points) == EncodePoint(point) + Encode(points)
  {
    assert ([point] + points)[1..] == points;
  }

  lemma {:induction false} EncodeUndoesDecode(units: seq<CodeUnit>)
    ensures Encode(Decode(units)) == units
  {
    if units != [] {
      var point := FirstPoint(units);
      var n := Size(point);
      EncodeUndoesDecode(units[n..]);
      EncodeOneMore(point, Decode(units[n..]));
      assert units == units[..n] + units[n..];
    }
  }

  ghost predicate AllScalars(points: seq<CodePoint>) {
    forall i :: 0 <= i < |points| ==> IsScalar(points[i])
  }

  lemma FirstPointOfEncoding(point: CodePoint, rest: seq<CodeUnit>)
    requires IsScalar(point)
    ensures FirstPoint(EncodePoint(point) + rest) == point
  {
    var units := EncodePoint(point) + rest;
    if point >= 0x10000 {
      assert units[0] == 0xd800 + (point - 0x10000) / 0x400;
      assert units[1] == 0xdc00 + (point - 0x10000) % 0x400;
    }
  }

  /** The encoding loses nothing: this is what makes `Decode` the meaning of a well-formed string. */
  lemma {:induction false} DecodeUndoesEncode(points: seq<CodePoint>)
    requires AllScalars(points)
    ensures Decode(Encode(points)) == points
  {
    if points != [] {
      var rest := Encode(points[1..]);
      FirstPointOfEncoding(points[0], rest);
      DecodeUndoesEncode(points[1..]);
      assert Encode(points)[Size(points[0])..] == rest;
    }
  }

  // ---- The requested range ----

  /** A negative bound counts from the end; every bound is clamped into the string. */
  function Clamp(bound: int, length: nat): (k: nat)
    ensures k <= length
  {
    if bound < 0 then (if length + bound < 0 then 0 else length + bound)
    else if bound < length then bound else length
  }

  function LowBound(length: nat, start: int, end: Option<int>): (k: nat)
    ensures k <= length
  {
    var a, b := Clamp(start, length), EndBound(length, end);
    if a <= b then a else b
  }

  function HighBound(length: nat, start: int, end: Option<int>): (k: nat)
    ensures LowBound(length, start, end) <= k <= length
  {
    var a, b := Clamp(start, length), EndBound(length, end);
    if a <= b then b else a
  }

  function EndBound(length: nat, end: Option<int>): (k: nat)
    ensures k <= length
  {
    match end case None => length case Some(e) => Clamp(e, length)
  }

  /** The code points lying wholly inside the range of code units from `low` to `high`; both bounds
      are counted from where the first code point starts. */
  function Inside(points: seq<CodePoint>, low: int, high: int): seq<CodePoint> {
    if points == [] then [] else
      var n := Size(points[0]);
      (if low <= 0 && n <= high then [points[0]] else []) + Inside(points[1..], low - n, high - n)
  }

  // ---- The functions of the source ----

  /** Between the units at k - 1 and k a surrogate pair would be cut. */
  predicate CutsPair(units: seq<CodeUnit>, k: int) {
    0 < k < |units| && IsHighSurrogate(units[k - 1]) && IsLowSurrogate(units[k])
  }

  /** String.prototype.slice on bounds that lie in the string: empty when they cross. */
  function Slice(units: seq<CodeUnit>, from: nat, to: nat): seq<CodeUnit>
    requires from <= |units| && to <= |units|
  {
    if from <= to then units[from..to] else []
  }

  /** For every string and all bounds: exactly the code points that lie wholly in the range. */
  method SliceUtf16Safe(input: seq<CodeUnit>, start: int, end: Option<int>) returns (result: seq<CodeUnit>)
    ensures result == Encode(Inside(Decode(input), LowBound(|input|, start, end), HighBound(|input|, start, end)))
  {
    var len := |input|;
    var from := Clamp(start, len);
    var to := EndBound(len, end);
    if to < from {
      var tmp := from;
      from := to;
      to := tmp;
    }
    ghost var low, high := from, to;
    if from > 0 && from < len {
      var codeUnit := input[from];
      if IsLowSurrogate(codeUnit) && IsHighSurrogate(input[from - 1]) {
        from := from + 1;
      }
    }
    if to > 0 && to < len {
      var codeUnit := input[to - 1];
      if IsHighSurrogate(codeUnit) && IsLowSurrogate(input[to]) {
        to := to - 1;
      }
    }
    assert from == RoundUp(input, low) && to == RoundDown(input, high);
    InsideIsSlice(input, low, high);
    result := Slice(input, from, to);
  }

  /** The longest run of leading code points that fits. */
  method TruncateUtf16Safe(input: seq<CodeUnit>, maxLen: real) returns (result: seq<CodeUnit>)
    ensures result == Encode(Inside(Decode(input), 0, Limit(maxLen)))
  {
    var limit := Limit(maxLen);
    if |input| <= limit {
      WholeStringIsInside(input, limit);
      return input;
    }
    result := SliceUtf16Safe(input, 0, Some(limit));
  }

  function Limit(maxLen: real): nat {
    if maxLen.Floor < 0 then 0 else maxLen.Floor
  }

  // ---- The range in other words ----

  /** The bounds as String.prototype.slice counts them: those in the string count as they are, negative
      ones from the end, those out of range from the nearer end, and a missing end is the length. Unlike
      there, bounds in the wrong order are swapped. */
  lemma BoundsAsCounted(length: nat, a: nat, b: nat, over: nat)
    requires a <= b <= length
    ensures LowBound(length, a, Some(b)) == a && HighBound(length, a, Some(b)) == b
    ensures LowBound(length, b, Some(a)) == a && HighBound(length, b, Some(a)) == b
    ensures b < length ==> LowBound(length, a - length, Some(b - length)) == a
                           && HighBound(length, a - length, Some(b - length)) == b
    ensures LowBound(length, a, Some(length + over)) == a && HighBound(length, a, Some(length + over)) == length
    ensures var before: int := 0 - length - over;
            over > 0 ==> LowBound(length, before, Some(b)) == 0 && HighBound(length, before, Some(b)) == b
    ensures LowBound(length, a, None) == a && HighBound(length, a, None) == length
  {}

  /** The limit of a truncation is the whole part of the number given, and nothing below zero. */
  lemma LimitIsWholePart(maxLen: real, k: nat)
    ensures Limit(maxLen) >= k <==> k == 0 || maxLen >= k as real
  {}

  // ---- Slicing is selecting code points ----

  function RoundUp(units: seq<CodeUnit>, k: int): (r: nat)
    requires k <= |units|
    ensures r <= |units|
  {
    if k < 0 then 0 else if CutsPair(units, k) then k + 1 else k
  }

  function RoundDown(units: seq<CodeUnit>, k: int): (r: nat)
    requires k <= |units|
    ensures r <= |units|
  {
    if k < 0 then 0 else if CutsPair(units, k) then k - 1 else k
  }

  /** Past the first code point, a cut is a cut of the rest. */
  lemma RoundPastFirst(units: seq<CodeUnit>, n: nat, k: int)
    requires units != [] && n == Size(FirstPoint(units)) <= k <= |units|
    ensures RoundUp(units, k) == n + RoundUp(units[n..], k - n)
    ensures RoundDown(units, k) == n + RoundDown(units[n..], k - n)
  {
    var rest := units[n..];
    if k > n && k < |units| {
      assert rest[k - n] == units[k] && rest[k - n - 1] == units[k - 1];
    }
  }

  /** Inside the first code point a bound moves to one of its ends. */
  lemma RoundInFirst(units: seq<CodeUnit>, n: nat, k: int)
    requires units != [] && n == Size(FirstPoint(units)) && k < n
    ensures RoundUp(units, k) == if k <= 0 then 0 else n
    ensures RoundDown(units, k) == 0
  {
  }

  lemma SliceOfRest(units: seq<CodeUnit>, n: nat, from: nat, to: nat)
    requires n <= |units| && from <= |units| - n && to <= |units| - n
    ensures Slice(units[n..], from, to) == Slice(units, n + from, n + to)
    ensures units[..n] + Slice(units[n..], 0, to) == Slice(units, 0, n + to)
  {
  }

  /** One step of the selection, in terms of the units. */
  lemma EncodeInside(units: seq<CodeUnit>, n: nat, low: int, high: int)
    requires units != [] && n == Size(FirstPoint(units))
    ensures Encode(Inside(Decode(units), low, high))
         == (if low <= 0 && n <= high then units[..n] else []) + Encode(Inside(Decode(units[n..]), low - n, high - n))
  {
    var point, points := FirstPoint(units), Decode(units);
    assert points[1..] == Decode(units[n..]);
    var later := Inside(points[1..], low - n, high - n);
    assert ([point] + later)[1..] == later;
    assert [] + later == later;
  }

  lemma {:induction false} InsideIsPrefix(units: seq<CodeUnit>, low: int, high: int)
    requires low <= 0 && high <= |units|
    ensures Encode(Inside(Decode(units), low, high)) == Slice(units, 0, RoundDown(units, high))
    decreases |units|
  {
    if units != [] {
      var n := Size(FirstPoint(units));
      EncodeInside(units, n, low, high);
      InsideIsPrefix(units[n..], low - n, high - n);
      if high >= n {
        RoundPastFirst(units, n, high);
        SliceOfRest(units, n, 0, RoundDown(units[n..], high - n));
      } else {
        RoundInFirst(units, n, high);
      }
    }
  }

  /** A range that starts past the first unit is the shifted range of the rest. */
  lemma SliceStep(units: seq<CodeUnit>, n: nat, low: int, high: int)
    requires units != [] && n == Size(FirstPoint(units)) && 0 < low <= high <= |units|
    ensures Slice(units, RoundUp(units, low), RoundDown(units, high))
         == Slice(units[n..], RoundUp(units[n..], low - n), RoundDown(units[n..], high - n))
  {
    var rest := units[n..];
    if low < n {
      RoundInFirst(units, n, low);
    } else {
      RoundPastFirst(units, n, low);
    }
    if high < n {
      RoundInFirst(units, n, high);
    } else {
      RoundPastFirst(units, n, high);
      SliceOfRest(units, n, RoundUp(rest, low - n), RoundDown(rest, high - n));
    }
  }

  lemma {:induction false} InsideIsSlice(units: seq<CodeUnit>, low: int, high: int)
    requires low <= high <= |units|
    ensures Encode(Inside(Decode(units), low, high)) == Slice(units, RoundUp(units, low), RoundDown(units, high))
    decreases |units|
  {
    if low <= 0 || units == [] {
      InsideIsPrefix(units, low, high);
    } else {
      var n := Size(FirstPoint(units));
      EncodeInside(units, n, low, high);
      InsideIsSlice(units[n..], low - n, high - n);
      SliceStep(units, n, low, high);
    }
  }

  lemma WholeStringIsInside(units: seq<CodeUnit>, high: int)
    requires |units| <= high
    ensures Encode(Inside(Decode(units), 0, high)) == units
  {
    EncodeUndoesDecode(units);
    EverythingIsInside(Decode(units), 0, high);
  }

  lemma {:induction false} EverythingIsInside(points: seq<CodePoint>, low: int, high: int)
    requires low <= 0 && |Encode(points)| <= high
    ensures Inside(points, low, high) == points
  {
    if points != [] {
      EverythingIsInside(points[1..], low - Size(points[0]), high - Size(points[0]));
    }
  }

  // ---- What slicing keeps ----

  /** Well-formed UTF-16: every surrogate has its partner. */
  ghost predicate WellFormed(units: seq<CodeUnit>) {
    AllScalars(Decode(units))
  }

  lemma WellFormedIff(units: seq<CodeUnit>)
    ensures WellFormed(units) <==> exists points: seq<CodePoint> :: AllScalars(points) && Encode(points) == units
  {
    EncodeUndoesDecode(units);
    forall points: seq<CodePoint> | AllScalars(points) && Encode(points) == units
      ensures WellFormed(units)
    {
      DecodeUndoesEncode(points);
    }
  }

  lemma {:induction false} InsideKeepsScalars(points: seq<CodePoint>, low: int, high: int)
    requires AllScalars(points)
    ensures AllScalars(Inside(points, low, high))
  {
    if points != [] {
      InsideKeepsScalars(points[1..], low - Size(points[0]), high - Size(points[0]));
    }
  }

  /** On the encoding of any text, a slice is the encoding of the text wholly inside the range. */
  lemma SliceOfText(points: seq<CodePoint>, low: int, high: int)
    requires AllScalars(points) && low <= high <= |Encode(points)|
    ensures Slice(Encode(points), RoundUp(Encode(points), low), RoundDown(Encode(points), high))
         == Encode(Inside(points, low, high))
    ensures WellFormed(Encode(Inside(points, low, high)))
  {
    DecodeUndoesEncode(points);
    InsideIsSlice(Encode(points), low, high);
    InsideKeepsScalars(points, low, high);
    DecodeUndoesEncode(Inside(points, low, high));
  }

  /** A string that is too long loses what is past the limit, and one unit more exactly when the
      limit falls within a surrogate pair. */
  lemma TruncatedLength(units: seq<CodeUnit>, limit: nat)
    requires |units| > limit
    ensures Encode(Inside(Decode(units), 0, limit)) == units[..if CutsPair(units, limit) then limit - 1 else limit]
    ensures WellFormed(units) ==> WellFormed(Encode(Inside(Decode(units), 0, limit)))
  {
    InsideIsPrefix(units, 0, limit);
    if WellFormed(units) {
      InsideKeepsScalars(Decode(units), 0, limit);
      DecodeUndoesEncode(Inside(Decode(units), 0, limit));
    }
  }

  /** Truncation keeps the longest run of leading code points that fits the limit. */
  lemma {:induction false} TruncationIsLongest(points: seq<CodePoint>, low: int, limit: int) returns (k: nat)
    requires low <= 0 <= limit
    ensures k <= |points| && Inside(points, low, limit) == points[..k]
    ensures |Encode(points[..k])| <= limit
    ensures k < |points| ==> |Encode(points[..k + 1])| > limit
  {
    if points == [] {
      k := 0;
    } else {
      var n := Size(points[0]);
      if n <= limit {
        var j := TruncationIsLongest(points[1..], low - n, limit - n);
        k := j + 1;
        assert points[..k][1..] == points[1..][..j];
        assert k < |points| ==> points[..k + 1][1..] == points[1..][..j + 1];
      } else {
        k := 0;
        assert points[..1] == [points[0]];
        NothingInside(points[1..], low - n, limit - n);
      }
    }
  }

  lemma {:induction false} NothingInside(points: seq<CodePoint>, low: int, high: int)
    requires high <= 0
    ensures Inside(points, low, high) == []
  {
    if points != [] {
      NothingInside(points[1..], low - Size(points[0]), high - Size(points[0]));
    }
  }
}
