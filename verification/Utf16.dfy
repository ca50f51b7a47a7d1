/**
 Slicing strings of UTF-16 code units without cutting a surrogate pair in two.  The reference is
 the encoding of code points in section 3.9 of the Unicode Standard.
 */
module Utf16 {
  import opened Collections
  import opened Optional

  /** A UTF-16 code unit. */
  type CodeUnit = u: int | 0 <= u <= 0xFFFF

  /** A code point; those from 0xD800 to 0xDFFF are surrogates, which no well-formed text holds. */
  type CodePoint = c: int | 0 <= c <= 0x10FFFF

  predicate IsHighSurrogate(u: int) {
    0xD800 <= u <= 0xDBFF
  }

  predicate IsLowSurrogate(u: int) {
    0xDC00 <= u <= 0xDFFF
  }

  // ----- the encoding form -----

  function EncodeOne(c: CodePoint): (units: seq<CodeUnit>)
    ensures 1 <= |units| <= 2
  {
    if c < 0x10000 then [c] else [0xD800 + (c - 0x10000) / 0x400, 0xDC00 + (c - 0x10000) % 0x400]
  }

  function Encode(cs: seq<CodePoint>): seq<CodeUnit> {
    if cs == [] then [] else EncodeOne(cs[0]) + Encode(cs[1..])
  }

  /** How many units the first code point takes. */
  function LeadLength(s: seq<CodeUnit>): (k: nat)
    requires s != []
    ensures 1 <= k <= |s|
  {
    if |s| > 1 && IsHighSurrogate(s[0]) && IsLowSurrogate(s[1]) then 2 else 1
  }

  function Lead(s: seq<CodeUnit>): CodePoint
    requires s != []
  {
    if LeadLength(s) == 2 then 0x10000 + (s[0] as int - 0xD800) * 0x400 + (s[1] as int - 0xDC00) else s[0]
  }

  /** The code points of a string; a surrogate without its partner stands for itself. */
  function Decode(s: seq<CodeUnit>): seq<CodePoint> {
    if s == [] then [] else [Lead(s)] + Decode(s[LeadLength(s)..])
  }

  predicate IsScalar(c: CodePoint) {
    !IsHighSurrogate(c) && !IsLowSurrogate(c)
  }

  predicate AllScalar(cs: seq<CodePoint>) {
    forall i :: 0 <= i < |cs| ==> IsScalar(cs[i])
  }

  /** The encoding of some scalar values. */
  ghost predicate IsWellFormed(s: seq<CodeUnit>) {
    exists cs: seq<CodePoint> :: AllScalar(cs) && Encode(cs) == s
  }

  lemma EncodeLead(s: seq<CodeUnit>)
    requires s != []
    ensures EncodeOne(Lead(s)) == s[..LeadLength(s)]
  {
  }

  lemma {:induction false} EncodeDecode(s: seq<CodeUnit>)
    ensures Encode(Decode(s)) == s
  {
    if s != [] {
      var k := LeadLength(s);
      EncodeLead(s);
      EncodeDecode(s[k..]);
      assert Decode(s)[1..] == Decode(s[k..]);
      assert s == s[..k] + s[k..];
    }
  }

  lemma LeadOfEncoding(c: CodePoint, rest: seq<CodeUnit>)
    requires IsScalar(c)
    ensures Lead(EncodeOne(c) + rest) == c && LeadLength(EncodeOne(c) + rest) == |EncodeOne(c)|
  {
  }

  lemma {:induction false} DecodeEncode(cs: seq<CodePoint>)
    requires AllScalar(cs)
    ensures Decode(Encode(cs)) == cs
  {
    if cs != [] {
      var one, rest := EncodeOne(cs[0]), Encode(cs[1..]);
      DecodeEncode(cs[1..]);
      assert IsScalar(cs[0]);
      LeadOfEncoding(cs[0], rest);
      assert (one + rest)[|one|..] == rest;
      assert cs == [cs[0]] + cs[1..];
    }
  }

  /** Well-formed strings are those that decode to scalar values only. */
  lemma WellFormedIffScalar(s: seq<CodeUnit>)
    ensures IsWellFormed(s) <==> AllScalar(Decode(s))
  {
    EncodeDecode(s);
    if IsWellFormed(s) {
      var cs: seq<CodePoint> :| AllScalar(cs) && Encode(cs) == s;
      DecodeEncode(cs);
    }
  }

  // ----- boundaries -----

  /** Position `p` lies in the middle of a surrogate pair. */
  predicate SplitsPair(s: seq<CodeUnit>, p: int) {
    0 < p < |s| && IsHighSurrogate(s[p - 1]) && IsLowSurrogate(s[p])
  }

  predicate IsBoundary(s: seq<CodeUnit>, p: int) {
    0 <= p <= |s| && !SplitsPair(s, p)
  }

  lemma LeadOfPrefix(s: seq<CodeUnit>, p: nat)
    requires 0 < p && IsBoundary(s, p)
    ensures LeadLength(s) <= p && LeadLength(s[..p]) == LeadLength(s) && Lead(s[..p]) == Lead(s)
    ensures IsBoundary(s[LeadLength(s)..], p - LeadLength(s))
  {
  }

  lemma CutTwice(s: seq<CodeUnit>, k: nat, p: nat)
    requires k <= p <= |s|
    ensures s[k..][..p - k] == s[..p][k..] && s[k..][p - k..] == s[p..]
  {
  }

  /** Cutting at a boundary cuts between code points. */
  lemma {:induction false} DecodeSplits(s: seq<CodeUnit>, p: nat)
    requires IsBoundary(s, p)
    ensures Decode(s) == Decode(s[..p]) + Decode(s[p..])
    decreases p
  {
    if p == 0 {
      assert s[p..] == s;
    } else {
      var k := LeadLength(s);
      LeadOfPrefix(s, p);
      DecodeSplits(s[k..], p - k);
      CutTwice(s, k, p);
      assert Decode(s[..p]) == [Lead(s)] + Decode(s[..p][k..]);
      Associates([Lead(s)], Decode(s[..p][k..]), Decode(s[p..]));
    }
  }

  /** A part of a string between two boundaries is a run of its code points. */
  lemma PartIsRun(s: seq<CodeUnit>, a: nat, b: nat)
    requires a <= b && IsBoundary(s, a) && IsBoundary(s, b)
    ensures Decode(s) == Decode(s[..a]) + Decode(s[a..b]) + Decode(s[b..])
  {
    DecodeSplits(s, b);
    DecodeSplits(s[..b], a);
    assert s[..b][..a] == s[..a];
    assert s[..b][a..] == s[a..b];
  }

  // ----- slicing -----

  /** An index counts from the end when negative, and beyond the ends stands for the end. */
  predicate IsPosition(len: nat, i: int, p: nat) {
    if i < 0 then p <= len && (p == len + i || (p == 0 && len + i < 0))
    else p == i <= len || p == len < i
  }

  /** A missing end is the end of the string. */
  predicate IsEndPosition(len: nat, end: Option<int>, p: nat) {
    match end
    case None => p == len
    case Some(i) => IsPosition(len, i, p)
  }

  /** The position in range nearest to `i`. */
  function Clamp(len: nat, i: int): (r: nat)
    ensures r <= len && forall p: nat :: IsPosition(len, i, p) <==> p == r
  {
    if i >= len then len else if i >= 0 then i else if len + i >= 0 then len + i else 0
  }

  function EndOf(len: nat, end: Option<int>): (r: nat)
    ensures r <= len
  {
    if end.None? then len else Clamp(len, end.value)
  }

  /** The two ends in order: crossing ends change places. */
  function Low(len: nat, start: int, end: Option<int>): nat {
    if EndOf(len, end) < Clamp(len, start) then EndOf(len, end) else Clamp(len, start)
  }

  function High(len: nat, start: int, end: Option<int>): nat {
    if EndOf(len, end) < Clamp(len, start) then Clamp(len, start) else EndOf(len, end)
  }

  /** `s[a..b]` cuts no pair, lies within the range, and holds every other such part. */
  ghost predicate IsLargestWhole(s: seq<CodeUnit>, lo: nat, hi: nat, a: nat, b: nat) {
    && a <= b && IsBoundary(s, a) && IsBoundary(s, b)
    && (a < b ==> lo <= a && b <= hi)
    && forall c, d :: lo <= c < d <= hi && IsBoundary(s, c) && IsBoundary(s, d) ==> a <= c && d <= b
  }

  /** `out` is the largest part of the range that cuts no pair; no characters at all if only such parts exist. */
  ghost predicate IsSafeSlice(s: seq<CodeUnit>, lo: nat, hi: nat, out: seq<CodeUnit>) {
    exists a: nat, b: nat :: IsLargestWhole(s, lo, hi, a, b) && out == s[a..b]
  }

  /** The first boundary from `lo` on, and the last one up to `hi`. */
  function CutFrom(s: seq<CodeUnit>, lo: nat): nat {
    if SplitsPair(s, lo) then lo + 1 else lo
  }

  function CutTo(s: seq<CodeUnit>, hi: nat): nat {
    if SplitsPair(s, hi) then hi - 1 else hi
  }

  /** At most one unit is lost at each end, and only where the range cuts a pair. */
  lemma LargestWholeBounds(s: seq<CodeUnit>, lo: nat, hi: nat, a: nat, b: nat)
    requires lo <= hi <= |s|
    ensures IsLargestWhole(s, lo, hi, a, b) <==>
            if CutFrom(s, lo) < CutTo(s, hi) then a == CutFrom(s, lo) && b == CutTo(s, hi)
            else a == b && IsBoundary(s, a)
  {
    var c, d := CutFrom(s, lo), CutTo(s, hi);
    assert IsBoundary(s, c) && IsBoundary(s, d);
    forall p | lo <= p <= hi && IsBoundary(s, p)
      ensures c <= p <= d
    {
    }
  }

  /** `String.slice` on indices already in range; crossing indices give the empty string. */
  function Slice(s: seq<CodeUnit>, from: nat, to: nat): seq<CodeUnit>
    requires from <= |s| && to <= |s|
  {
    if from < to then s[from..to] else []
  }

  /** The slice between the two positions, whichever comes first, and there are such positions. */
  method SliceUtf16Safe(input: seq<CodeUnit>, start: int, end: Option<int>) returns (out: seq<CodeUnit>)
    ensures exists p: nat, q: nat :: IsPosition(|input|, start, p) && IsEndPosition(|input|, end, q)
    ensures forall p: nat, q: nat :: IsPosition(|input|, start, p) && IsEndPosition(|input|, end, q) ==>
              IsSafeSlice(input, if p <= q then p else q, if p <= q then q else p, out)
  {
    var len := |input|;
    var from := Clamp(len, start);
    var to := EndOf(len, end);
    if to < from {
      var tmp := from;
      from := to;
      to := tmp;
    }
    ghost var lo, hi := Low(len, start, end), High(len, start, end);
    assert from == lo && to == hi;
    if 0 < from < len {
      var codeUnit := input[from];
      if IsLowSurrogate(codeUnit) && IsHighSurrogate(input[from - 1]) {
        from := from + 1;
      }
    }
    if 0 < to < len {
      var codeUnit := input[to - 1];
      if IsHighSurrogate(codeUnit) && IsLowSurrogate(input[to]) {
        to := to - 1;
      }
    }
    assert from == CutFrom(input, lo) && to == CutTo(input, hi);
    out := Slice(input, from, to);
    ghost var a, b := from, if from < to then to else from;
    LargestWholeBounds(input, lo, hi, a, b);
    AnyNaming(input, start, end, out);
  }

  /** The positions of start and end are the only ones. */
  lemma AnyNaming(s: seq<CodeUnit>, start: int, end: Option<int>, out: seq<CodeUnit>)
    requires IsSafeSlice(s, Low(|s|, start, end), High(|s|, start, end), out)
    ensures exists p: nat, q: nat :: IsPosition(|s|, start, p) && IsEndPosition(|s|, end, q)
    ensures forall p: nat, q: nat :: IsPosition(|s|, start, p) && IsEndPosition(|s|, end, q) ==>
              IsSafeSlice(s, if p <= q then p else q, if p <= q then q else p, out)
  {
    assert IsPosition(|s|, start, Clamp(|s|, start)) && IsEndPosition(|s|, end, EndOf(|s|, end));
    forall p: nat, q: nat | IsPosition(|s|, start, p) && IsEndPosition(|s|, end, q)
      ensures IsSafeSlice(s, if p <= q then p else q, if p <= q then q else p, out)
    {
      assert p == Clamp(|s|, start) && q == EndOf(|s|, end);
    }
  }

  /** The slice is determined by the range: what lies between its first and its last boundary. */
  lemma SafeSliceIs(s: seq<CodeUnit>, lo: nat, hi: nat, out: seq<CodeUnit>)
    requires lo <= hi <= |s|
    ensures IsSafeSlice(s, lo, hi, out) <==> out == Slice(s, CutFrom(s, lo), CutTo(s, hi))
  {
    var c, d := CutFrom(s, lo), CutTo(s, hi);
    if IsSafeSlice(s, lo, hi, out) {
      var a: nat, b: nat :| IsLargestWhole(s, lo, hi, a, b) && out == s[a..b];
      LargestWholeBounds(s, lo, hi, a, b);
    }
    if out == Slice(s, c, d) {
      LargestWholeBounds(s, lo, hi, c, if c < d then d else c);
      assert out == s[c..if c < d then d else c];
    }
  }

  /** The slice is a run of whole code points of the input. */
  lemma SliceKeepsWholeCodePoints(s: seq<CodeUnit>, lo: nat, hi: nat, out: seq<CodeUnit>)
    requires IsSafeSlice(s, lo, hi, out)
    ensures exists i, j :: 0 <= i <= j <= |Decode(s)| && Decode(out) == Decode(s)[i..j]
    ensures IsWellFormed(s) ==> IsWellFormed(out)
  {
    var a: nat, b: nat :| IsLargestWhole(s, lo, hi, a, b) && out == s[a..b];
    var all, part := Decode(s), Decode(out);
    PartIsRun(s, a, b);
    var i := |Decode(s[..a])|;
    assert part == all[i..i + |part|];
    WellFormedIffScalar(s);
    WellFormedIffScalar(out);
  }

  // ----- truncation -----

  /** A length limit is rounded down, and nothing is left of a negative one. */
  predicate IsLimit(maxLen: real, limit: nat) {
    if maxLen < 0.0 then limit == 0 else limit as real <= maxLen < limit as real + 1.0
  }

  method TruncateUtf16Safe(input: seq<CodeUnit>, maxLen: real) returns (out: seq<CodeUnit>)
    ensures exists limit: nat :: IsLimit(maxLen, limit) && out == Truncated(input, limit)
  {
    var limit := if maxLen.Floor > 0 then maxLen.Floor else 0;
    assert IsLimit(maxLen, limit);
    if |input| <= limit {
      return input;
    }
    out := SliceUtf16Safe(input, 0, Some(limit));
    assert IsPosition(|input|, 0, 0) && IsPosition(|input|, limit, limit);
    SafeSliceIs(input, 0, limit, out);
  }

  /** All of a short string; else the first `limit` units, or one fewer if that would cut a pair. */
  function Truncated(s: seq<CodeUnit>, limit: nat): (t: seq<CodeUnit>)
    ensures t <= s && |t| <= limit
  {
    if |s| <= limit then s else if SplitsPair(s, limit) then s[..limit - 1] else s[..limit]
  }

  lemma {:induction false} EncodeConcat(a: seq<CodePoint>, b: seq<CodePoint>)
    ensures Encode(a + b) == Encode(a) + Encode(b)
  {
    if a == [] {
      assert a + b == b;
    } else {
      EncodeConcat(a[1..], b);
      assert (a + b)[1..] == a[1..] + b && (a + b)[0] == a[0];
      Associates(EncodeOne(a[0]), Encode(a[1..]), Encode(b));
    }
  }

  /** The code point after the cut would go over the limit. */
  lemma NextDoesNotFit(s: seq<CodeUnit>, limit: nat)
    requires |s| > limit
    ensures var kept := Decode(Truncated(s, limit));
            |kept| < |Decode(s)| && |Encode(Decode(s)[..|kept| + 1])| > limit
  {
    var t := Truncated(s, limit);
    var kept, rest := Decode(t), s[|t|..];
    assert t == s[..|t|];
    DecodeSplits(s, |t|);
    EncodeDecode(t);
    assert Decode(s)[..|kept| + 1] == kept + [Lead(rest)];
    EncodeConcat(kept, [Lead(rest)]);
    assert Encode([Lead(rest)]) == EncodeOne(Lead(rest));
    EncodeLead(rest);
  }

  /** Truncation keeps as many whole code points from the front as fit in the limit. */
  lemma TruncationIsLongest(s: seq<CodeUnit>, limit: nat)
    ensures var kept := Decode(Truncated(s, limit));
            && kept <= Decode(s) && |Encode(kept)| <= limit
            && (kept != Decode(s) ==> |Encode(Decode(s)[..|kept| + 1])| > limit)
    ensures IsWellFormed(s) ==> IsWellFormed(Truncated(s, limit))
  {
    var t := Truncated(s, limit);
    var all, kept := Decode(s), Decode(t);
    assert IsBoundary(s, |t|) && t == s[..|t|];
    DecodeSplits(s, |t|);
    EncodeDecode(t);
    WellFormedIffScalar(s);
    WellFormedIffScalar(t);
    if kept != all {
      NextDoesNotFit(s, limit);
    }
  }
}
