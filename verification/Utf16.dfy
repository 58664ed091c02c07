/** Slicing UTF-16 text without splitting a surrogate pair. */
module Utf16 {
  import opened Common

  newtype Unit = u: int | 0 <= u < 0x1_0000

  type Text = seq<Unit>

  predicate IsHighSurrogate(u: Unit) {
    0xD800 <= u <= 0xDBFF
  }

  predicate IsLowSurrogate(u: Unit) {
    0xDC00 <= u <= 0xDFFF
  }

  // ----- code points; a surrogate without a partner is a code point of its own

  predicate PairAt(s: Text, i: nat) {
    i + 1 < |s| && IsHighSurrogate(s[i]) && IsLowSurrogate(s[i + 1])
  }

  function Width(s: Text): (w: nat)
    requires s != []
    ensures 1 <= w <= |s|
  {
    if PairAt(s, 0) then 2 else 1
  }

  /** Section 2.2 of RFC 2781. */
  function CodePoint(s: Text): int
    requires s != []
  {
    if PairAt(s, 0) then 0x1_0000 + (s[0] as int - 0xD800) * 0x400 + (s[1] as int - 0xDC00) else s[0] as int
  }

  function Decode(s: Text): seq<int> {
    if s == [] then [] else [CodePoint(s)] + Decode(s[Width(s)..])
  }

  /** Section 2.1 of RFC 2781, extended to lone surrogates. */
  function EncodeOne(c: int): Text
    requires 0 <= c <= 0x10_FFFF
  {
    if c < 0x1_0000 then [c as Unit]
    else [((c - 0x1_0000) / 0x400 + 0xD800) as Unit, ((c - 0x1_0000) % 0x400 + 0xDC00) as Unit]
  }

  function Encode(cs: seq<int>): Text
    requires forall i | 0 <= i < |cs| :: 0 <= cs[i] <= 0x10_FFFF
  {
    if cs == [] then [] else EncodeOne(cs[0]) + Encode(cs[1..])
  }

  lemma EncodeFirst(s: Text)
    requires s != []
    ensures 0 <= CodePoint(s) <= 0x10_FFFF && EncodeOne(CodePoint(s)) == s[..Width(s)]
  {
  }

  /** Decoding loses nothing, on ill-formed input too. */
  lemma {:induction false} EncodeDecode(s: Text)
    ensures forall i | 0 <= i < |Decode(s)| :: 0 <= Decode(s)[i] <= 0x10_FFFF
    ensures Encode(Decode(s)) == s
  {
    if s != [] {
      var rest := s[Width(s)..];
      EncodeDecode(rest);
      EncodeFirst(s);
      EncodeCons(CodePoint(s), Decode(rest));
      DecodeNext(s);
      TakeDrop(s, Width(s));
    }
  }

  lemma DecodeNext(s: Text)
    requires s != []
    ensures Decode(s) == [CodePoint(s)] + Decode(s[Width(s)..])
  {
  }

  lemma TakeDrop(s: Text, k: nat)
    requires k <= |s|
    ensures s == s[..k] + s[k..]
  {
  }

  predicate IsSurrogate(c: int) {
    0xD800 <= c <= 0xDFFF
  }

  /** Decoding an encoded text of code points that are no surrogates gives them back: the two halves of a pair are
      recognised, and nothing else is taken for one. */
  lemma {:induction false} DecodeEncode(cs: seq<int>)
    requires forall i | 0 <= i < |cs| :: 0 <= cs[i] <= 0x10_FFFF
    requires forall i | 0 <= i < |cs| :: !IsSurrogate(cs[i])
    ensures Decode(Encode(cs)) == cs
  {
    if cs != [] {
      DecodeEncode(cs[1..]);
      DecodeOne(cs[0], Encode(cs[1..]));
      assert cs == [cs[0]] + cs[1..];
    }
  }

  lemma DecodeOne(c: int, rest: Text)
    requires 0 <= c <= 0x10_FFFF && !IsSurrogate(c)
    ensures Decode(EncodeOne(c) + rest) == [c] + Decode(rest)
  {
    var s := EncodeOne(c) + rest;
    assert |EncodeOne(c)| == Width(s) && CodePoint(s) == c by {
      assert c >= 0x1_0000 ==> (c - 0x1_0000) / 0x400 < 0x400;
    }
    assert s[Width(s)..] == rest;
    DecodeNext(s);
  }

  lemma EncodeCons(c: int, cs: seq<int>)
    requires 0 <= c <= 0x10_FFFF && forall i | 0 <= i < |cs| :: 0 <= cs[i] <= 0x10_FFFF
    ensures forall i | 0 <= i < |[c] + cs| :: 0 <= ([c] + cs)[i] <= 0x10_FFFF
    ensures Encode([c] + cs) == EncodeOne(c) + Encode(cs)
  {
    assert ([c] + cs)[1..] == cs;
  }

  /** `i` is reached by stepping over whole code points from the start. */
  predicate Boundary(s: Text, i: int)
    decreases s
  {
    i == 0 || (0 < i <= |s| && Width(s) <= i && Boundary(s[Width(s)..], i - Width(s)))
  }

  predicate SplitsPair(s: Text, i: int) {
    0 < i < |s| && IsHighSurrogate(s[i - 1]) && IsLowSurrogate(s[i])
  }

  /** The local test of the slicing code finds exactly the positions inside a code point. */
  lemma {:induction false} BoundaryIff(s: Text, i: int)
    ensures Boundary(s, i) <==> 0 <= i <= |s| && !SplitsPair(s, i)
    decreases s
  {
    if 0 < i <= |s| {
      var w := Width(s);
      if w <= i {
        BoundaryIff(s[w..], i - w);
        assert w < i < |s| ==> s[w..][i - w] == s[i] && s[w..][i - w - 1] == s[i - 1];
      }
    }
  }

  /** Cutting the text decodes piecewise exactly at the boundaries. */
  lemma {:induction false} DecodeSplit(s: Text, i: int)
    requires 0 <= i <= |s|
    ensures Boundary(s, i) <==> Decode(s) == Decode(s[..i]) + Decode(s[i..])
    decreases s
  {
    if i == 0 {
      SplitAtStart(s);
    } else if Width(s) <= i {
      var rest := s[Width(s)..];
      DecodeSplit(rest, i - Width(s));
      DecodeSplitStep(s, rest, i);
    } else {
      HalfPair(s, i);
      NotInside(s, i);
    }
  }

  lemma SplitAtStart(s: Text)
    ensures Boundary(s, 0) && Decode(s) == Decode(s[..0]) + Decode(s[0..])
  {
    assert s[..0] == [] && s[0..] == s;
    assert Decode([]) + Decode(s) == Decode(s);
  }

  lemma NotInside(s: Text, i: int)
    requires s != [] && 0 < i < Width(s)
    ensures !Boundary(s, i)
  {
  }

  lemma DecodeSplitStep(s: Text, rest: Text, i: int)
    requires s != [] && Width(s) <= i <= |s| && rest == s[Width(s)..]
    requires Boundary(rest, i - Width(s))
             <==> Decode(rest) == Decode(rest[..i - Width(s)]) + Decode(rest[i - Width(s)..])
    ensures Boundary(s, i) <==> Decode(s) == Decode(s[..i]) + Decode(s[i..])
  {
    assert rest[i - Width(s)..] == s[i..];
    DecodeFirst(s, i);
    Cancel(CodePoint(s), Decode(rest), Decode(rest[..i - Width(s)]), Decode(s[i..]));
  }

  lemma Cancel(c: int, whole: seq<int>, left: seq<int>, right: seq<int>)
    ensures [c] + whole == ([c] + left) + right <==> whole == left + right
  {
    assert ([c] + left) + right == [c] + (left + right);
    assert ([c] + whole)[1..] == whole && ([c] + (left + right))[1..] == left + right;
  }

  /** A prefix that holds the first code point decodes to it and then to the rest of the prefix. */
  lemma DecodeFirst(s: Text, i: int)
    requires s != [] && Width(s) <= i <= |s|
    ensures Decode(s[..i]) == [CodePoint(s)] + Decode(s[Width(s)..][..i - Width(s)])
  {
    var p := s[..i];
    assert PairAt(p, 0) <==> PairAt(s, 0);
    assert p[Width(s)..] == s[Width(s)..][..i - Width(s)];
  }

  /** Cutting the first pair in half changes the first code point. */
  lemma HalfPair(s: Text, i: int)
    requires s != [] && 0 < i < Width(s)
    ensures Decode(s) != Decode(s[..i]) + Decode(s[i..])
  {
    var p := s[..i];
    assert p == [s[0]] && Decode(p) == [s[0] as int] + Decode(p[1..]);
    assert (Decode(p) + Decode(s[i..]))[0] == s[0] as int;
    assert Decode(s)[0] == CodePoint(s);
  }

  // ----- the slicing functions

  /** `input.slice(from, to)` for positions inside the text; crossed positions give the empty text. */
  function JsSlice(s: Text, from: int, to: int): Text
    requires 0 <= from <= |s| && 0 <= to <= |s|
  {
    if from <= to then s[from..to] else []
  }

  /** A position counted from the end when negative, clamped to the text. */
  function Clamp(len: nat, position: int): (p: int)
    ensures 0 <= p <= len
  {
    if position < 0 then Max(len + position, 0) else Min(position, len)
  }

  function Lower(s: Text, start: int, end: Option<int>): int {
    var from, to := Clamp(|s|, start), if end.None? then |s| else Clamp(|s|, end.value);
    Min(from, to)
  }

  function Upper(s: Text, start: int, end: Option<int>): int {
    var from, to := Clamp(|s|, start), if end.None? then |s| else Clamp(|s|, end.value);
    Max(from, to)
  }

  /** A window of whole code points between two positions of the text. */
  ghost predicate WholeWindow(s: Text, lo: int, hi: int, a: int, b: int) {
    lo <= a <= b <= hi && Boundary(s, a) && Boundary(s, b)
  }

  /** The window holds every other one between the two positions. */
  ghost predicate LargestWindow(s: Text, lo: int, hi: int, a: int, b: int) {
    WholeWindow(s, lo, hi, a, b) && forall c, d | WholeWindow(s, lo, hi, c, d) :: a <= c && d <= b
  }

  /** No code point fits, and no boundary lies between the two positions. */
  ghost predicate NoWindow(s: Text, lo: int, hi: int) {
    forall c, d :: !WholeWindow(s, lo, hi, c, d)
  }

  /** The text between two positions, each moved inwards if it splits a pair. */
  function Between(s: Text, lo: int, hi: int): Text
    requires 0 <= lo <= hi <= |s|
  {
    JsSlice(s, if SplitsPair(s, lo) then lo + 1 else lo, if SplitsPair(s, hi) then hi - 1 else hi)
  }

  function Sliced(s: Text, start: int, end: Option<int>): Text {
    Between(s, Lower(s, start, end), Upper(s, start, end))
  }

  method SliceUtf16Safe(input: Text, start: int, end: Option<int>) returns (r: Text)
    ensures r == Sliced(input, start, end)
  {
    var len := |input|;
    var from := Clamp(len, start);
    var to := if end.None? then len else Clamp(len, end.value);
    if to < from {
      var tmp := from;
      from := to;
      to := tmp;
    }
    ghost var lo, hi := from, to;
    if from > 0 && from < len {
      if IsLowSurrogate(input[from]) && IsHighSurrogate(input[from - 1]) {
        from := from + 1;
      }
    }
    if to > 0 && to < len {
      if IsHighSurrogate(input[to - 1]) && IsLowSurrogate(input[to]) {
        to := to - 1;
      }
    }
    assert from == if SplitsPair(input, lo) then lo + 1 else lo;
    assert to == if SplitsPair(input, hi) then hi - 1 else hi;
    r := JsSlice(input, from, to);
  }

  /** A slice between two positions of the text, in either order, is the largest window of whole code points between
      them, and empty if there is none. */
  lemma SliceIsWindow(s: Text, a: int, b: int)
    requires 0 <= a <= b <= |s|
    ensures Sliced(s, a, Some(b)) == Sliced(s, b, Some(a)) == Between(s, a, b)
    ensures (NoWindow(s, a, b) && Between(s, a, b) == [])
            || exists c, d :: LargestWindow(s, a, b, c, d) && Between(s, a, b) == s[c..d]
  {
    var from, to := if SplitsPair(s, a) then a + 1 else a, if SplitsPair(s, b) then b - 1 else b;
    AdjustedWindow(s, a, b, from, to);
  }

  /** Where positions lie: a negative one counts from the end of the text, one beyond the text is its nearer end, and a
      missing end is the end of the text. */
  lemma PositionsMean(s: Text, start: int, end: Option<int>, k: int)
    ensures -|s| <= k < 0 ==> Sliced(s, k, end) == Sliced(s, |s| + k, end)
    ensures -|s| <= k < 0 ==> Sliced(s, start, Some(k)) == Sliced(s, start, Some(|s| + k))
    ensures k < -|s| ==>
              Sliced(s, k, end) == Sliced(s, 0, end) && Sliced(s, start, Some(k)) == Sliced(s, start, Some(0))
    ensures k > |s| ==>
              Sliced(s, k, end) == Sliced(s, |s|, end) && Sliced(s, start, Some(k)) == Sliced(s, start, Some(|s|))
    ensures Sliced(s, start, None) == Sliced(s, start, Some(|s|))
  {
  }

  /** Counting `k` units from the end gives the longest suffix of whole code points of at most `k` units. */
  lemma SliceTail(s: Text, k: int, i: int)
    requires 0 < k <= |s|
    ensures var r := Sliced(s, -k, None);
            && |r| <= k && r == s[|s| - |r|..] && Boundary(s, |s| - |r|)
            && (Boundary(s, i) && |s| - k <= i ==> |s| - i <= |r|)
  {
    var lo := |s| - k;
    var from := if SplitsPair(s, lo) then lo + 1 else lo;
    assert Sliced(s, -k, None) == s[from..] by {
      assert Lower(s, -k, None) == lo && Upper(s, -k, None) == |s|;
    }
    BoundaryIff(s, from);
    BoundaryIff(s, i);
  }

  /** An end of `-k` gives the longest prefix of whole code points that leaves out the last `k` units. */
  lemma SliceDropTail(s: Text, k: int, i: int)
    requires 0 < k <= |s|
    ensures var r := Sliced(s, 0, Some(-k));
            && |r| <= |s| - k && r == s[..|r|] && Boundary(s, |r|)
            && (Boundary(s, i) && i <= |s| - k ==> i <= |r|)
  {
    var hi := |s| - k;
    var to := if SplitsPair(s, hi) then hi - 1 else hi;
    assert Sliced(s, 0, Some(-k)) == s[..to] by {
      assert Lower(s, 0, Some(-k)) == 0 && Upper(s, 0, Some(-k)) == hi;
    }
    BoundaryIff(s, to);
    BoundaryIff(s, i);
  }

  /** Moving an end that splits a pair inwards by one unit gives the largest window, or leaves none. */
  lemma AdjustedWindow(s: Text, lo: int, hi: int, from: int, to: int)
    requires 0 <= lo <= hi <= |s|
    requires from == if SplitsPair(s, lo) then lo + 1 else lo
    requires to == if SplitsPair(s, hi) then hi - 1 else hi
    ensures from <= to ==> LargestWindow(s, lo, hi, from, to)
    ensures from > to ==> NoWindow(s, lo, hi)
  {
    forall c, d | WholeWindow(s, lo, hi, c, d) ensures from <= c && d <= to {
      BoundaryIff(s, c);
      BoundaryIff(s, d);
    }
    if from <= to {
      BoundaryIff(s, from);
      BoundaryIff(s, to);
    }
  }

  /** Decoding the slice gives a contiguous part of what the whole text decodes to. */
  lemma SliceDecodesToPart(s: Text, lo: int, hi: int, a: int, b: int)
    requires 0 <= lo && hi <= |s| && WholeWindow(s, lo, hi, a, b)
    ensures Decode(s) == Decode(s[..a]) + Decode(s[a..b]) + Decode(s[b..])
  {
    var x, y, z := s[..a], s[a..b], s[b..];
    ThreeParts(s, a, b);
    BoundaryShift(s, a, b);
    DecodeConcat(x, y + z);
    DecodeConcat(y, z);
    Associate(Decode(x), Decode(y), Decode(z));
  }

  lemma ThreeParts(s: Text, a: nat, b: nat)
    requires a <= b <= |s|
    ensures s[a..] == s[a..b] + s[b..]
    ensures s == s[..a] + (s[a..b] + s[b..])
  {
    assert s[a..] == s[a..b] + s[b..];
    TakeDrop(s, a);
  }

  lemma DecodeConcat(x: Text, y: Text)
    requires Boundary(x + y, |x|)
    ensures Decode(x + y) == Decode(x) + Decode(y)
  {
    DecodeSplit(x + y, |x|);
    assert (x + y)[..|x|] == x && (x + y)[|x|..] == y;
  }

  lemma BoundaryShift(s: Text, a: int, b: int)
    requires 0 <= a <= b <= |s| && Boundary(s, b)
    ensures Boundary(s[a..], b - a)
  {
    BoundaryIff(s, b);
    SplitShift(s, a, b);
    BoundaryIff(s[a..], b - a);
  }

  lemma SplitShift(s: Text, a: int, b: int)
    requires 0 <= a <= b <= |s| && !SplitsPair(s, b)
    ensures !SplitsPair(s[a..], b - a)
  {
  }

  /** The end of the longest prefix of whole code points with at most `limit` units. */
  function Cut(s: Text, limit: int): (k: int)
    requires limit >= 0
    ensures 0 <= k <= |s| && k <= limit && !SplitsPair(s, k)
    ensures forall i | k < i <= |s| && i <= limit :: SplitsPair(s, i)
  {
    if |s| <= limit then |s| else if SplitsPair(s, limit) then limit - 1 else limit
  }

  function Limit(maxLen: real): (limit: int)
    ensures limit >= 0
  {
    Max(0, maxLen.Floor)
  }

  function Truncated(s: Text, maxLen: real): Text {
    s[..Cut(s, Limit(maxLen))]
  }

  method TruncateUtf16Safe(input: Text, maxLen: real) returns (r: Text)
    ensures r == Truncated(input, maxLen)
  {
    var limit := Limit(maxLen);
    if |input| <= limit {
      return input;
    }
    r := SliceUtf16Safe(input, 0, Some(limit));
    assert r == Between(input, 0, limit);
  }

  /** The result is a prefix of whole code points that fits, and every such prefix is a prefix of it. */
  lemma TruncatedIsLongest(s: Text, maxLen: real, i: int)
    ensures var r := Truncated(s, maxLen);
            && r <= s && Boundary(s, |r|) && (r == [] || |r| as real <= maxLen)
            && (Boundary(s, i) && i as real <= maxLen ==> s[..i] <= r)
  {
    BoundaryIff(s, |Truncated(s, maxLen)|);
    BoundaryIff(s, i);
    assert i as real <= maxLen ==> i <= maxLen.Floor;
  }

  /** Truncating twice is truncating once to the smaller length. */
  lemma TruncateCompose(s: Text, m: real, n: real)
    ensures Truncated(Truncated(s, m), n) == Truncated(s, if m <= n then m else n)
  {
    var k := Cut(s, Limit(m));
    var t := s[..k];
    assert Limit(if m <= n then m else n) == Min(Limit(m), Limit(n));
    assert forall i | 0 < i < k :: SplitsPair(t, i) <==> SplitsPair(s, i);
    var j := Cut(t, Limit(n));
    assert j == Cut(s, Min(Limit(m), Limit(n)));
    assert t[..j] == s[..j];
  }
}
