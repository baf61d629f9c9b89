/**
 * The decoder of Google's Encoded Polyline Algorithm Format at precision 1e5
 * (decodePolyline, frontend/src/services/api.ts).
 *
 * A polyline is a sequence of variable-length integers, two per point
 * (latitude delta, then longitude delta). Each integer is written in 5-bit
 * groups, least significant first, one group per character, offset by 63;
 * bit 0x20 of a group says that another group follows. The integers are
 * zig-zag encoded signed deltas from the previous point.
 *
 * Coordinates are kept as integers in units of 1e-5 degree: the program's
 * final division by 1e5 is not part of this model.
 */
module Polyline {

  /** A decoded point, longitude first: (lng, lat) in 1e-5 degrees. */
  type Point = (int, int)

  /** 32^k = 2^(5k): what `x << 5k` multiplies by while no bit is shifted out. */
  function Pow32(k: nat): (r: nat)
    ensures r >= 1
  {
    if k == 0 then 1 else 32 * Pow32(k - 1)
  }

  lemma {:induction false} Pow32Monotone(a: nat, b: nat)
    requires a <= b
    ensures Pow32(a) <= Pow32(b)
    decreases b - a
  {
    if a < b {
      Pow32Monotone(a, b - 1);
    }
  }

  // ---------------------------------------------------------------------
  // Characters and groups
  // ---------------------------------------------------------------------

  /**
   * `encoded.charCodeAt(i) - 63`. Past the end `charCodeAt` is NaN, and NaN
   * acts as 0 under `& 0x1f` and fails `>= 0x20`: reading past the end yields
   * a final group with payload 0, and no error is raised.
   */
  function Chunk(s: string, i: nat): (b: int)
    ensures i >= |s| ==> !Continues(b) && Payload(b) == 0
    ensures i < |s| && '?' <= s[i] <= '~' ==> 0 <= b < 64
  {
    if i < |s| then s[i] as int - 63 else 0
  }

  /** `b >= 0x20`: another group follows. */
  predicate Continues(b: int): (c: bool)
    ensures 0 <= b < 64 ==> (c <==> (b / 32) % 2 == 1)
  {
    b >= 0x20
  }

  /**
   * `b & 0x1f`. For a character below '?' the group is negative, and its
   * low five bits in two's complement are exactly Dafny's non-negative
   * remainder, so every character code is covered.
   */
  function Payload(b: int): (p: nat)
    ensures p < 32
    ensures 0 <= b < 64 ==> p == (if Continues(b) then b - 32 else b)
  {
    b % 32
  }

  /** The number of consecutive continuation characters from index i on. */
  function ContRun(s: string, i: nat): nat
    decreases |s| - i
  {
    if Continues(Chunk(s, i)) then 1 + ContRun(s, i + 1) else 0
  }

  // ---------------------------------------------------------------------
  // Variable-length integers
  // ---------------------------------------------------------------------

  /**
   * The variable-length integer that starts at index i: its value and the
   * index just after its last group. It ends at the first character from i
   * on whose continuation bit is clear.
   */
  function ReadVarint(s: string, i: nat): (r: (nat, nat))
    ensures r.1 == i + ContRun(s, i) + 1
    decreases |s| - i
  {
    var b := Chunk(s, i);
    if !Continues(b) then (Payload(b), i + 1)
    else
      var rest := ReadVarint(s, i + 1);
      (Payload(b) + 32 * rest.0, rest.1)
  }

  /**
   * `result` after n passes of the do-while loop started at index i:
   * the sum of `(b_k & 0x1f) << 5k` for k < n.
   */
  function ChunkSum(s: string, i: nat, n: nat): nat
  {
    if n == 0 then 0 else ChunkSum(s, i, n - 1) + Payload(Chunk(s, i + n - 1)) * Pow32(n - 1)
  }

  lemma {:induction false} ChunkSumFirst(s: string, i: nat, n: nat)
    ensures ChunkSum(s, i, n + 1) == Payload(Chunk(s, i)) + 32 * ChunkSum(s, i + 1, n)
  {
    if n > 0 {
      ChunkSumFirst(s, i, n - 1);
      var p := Payload(Chunk(s, i + n));
      var x := Pow32(n - 1);
      assert ChunkSum(s, i, n + 1) == ChunkSum(s, i, n) + p * Pow32(n);
      assert ChunkSum(s, i + 1, n) == ChunkSum(s, i + 1, n - 1) + p * x;
      MulShift(p, x);
    }
  }

  lemma MulShift(p: int, x: int)
    ensures p * (32 * x) == 32 * (p * x)
  {
  }

  /** A variable-length integer's value is the sum of its groups' payloads, each shifted by 5 bits per position. */
  lemma {:induction false} VarintIsChunkSum(s: string, i: nat)
    ensures ReadVarint(s, i).0 == ChunkSum(s, i, ReadVarint(s, i).1 - i)
    decreases |s| - i
  {
    if Continues(Chunk(s, i)) {
      VarintIsChunkSum(s, i + 1);
      ChunkSumFirst(s, i, ReadVarint(s, i + 1).1 - (i + 1));
    } else {
      assert ChunkSum(s, i, 1) == ChunkSum(s, i, 0) + Payload(Chunk(s, i)) * Pow32(0);
    }
  }

  /** A value of k + 1 groups fits in 5(k + 1) bits. */
  lemma {:induction false} VarintBound(s: string, i: nat)
    ensures ReadVarint(s, i).0 < Pow32(ContRun(s, i) + 1)
    decreases |s| - i
  {
    if Continues(Chunk(s, i)) {
      VarintBound(s, i + 1);
      var v := ReadVarint(s, i + 1).0;
      var x := Pow32(ContRun(s, i + 1) + 1);
      assert v + 1 <= x;
      assert 32 * (v + 1) <= 32 * x;
      assert Pow32(ContRun(s, i) + 1) == 32 * x;
    }
  }

  /**
   * The program computes `(b & 0x1f) << shift`, `|=`, `>> 1` and `~` on
   * 32-bit integers. When at most five continuation characters precede a
   * terminating one, the value stays below 2^30: the groups' bits are
   * disjoint and never reach the sign bit, so those operations agree with
   * the unbounded arithmetic of this model.
   */
  lemma VarintFitsInt32(s: string, i: nat)
    requires ContRun(s, i) <= 5
    ensures ReadVarint(s, i).0 < 0x4000_0000
  {
    VarintBound(s, i);
    Pow32Monotone(ContRun(s, i) + 1, 6);
    assert Pow32(6) == 0x4000_0000;
  }

  // ---------------------------------------------------------------------
  // Zig-zag signs
  // ---------------------------------------------------------------------

  /** `(r & 1) !== 0 ? ~(r >> 1) : r >> 1`: even values are non-negative deltas, odd ones negative. */
  function ZigZagDecode(r: nat): (v: int)
    ensures r % 2 == 0 ==> v == r / 2
    ensures r % 2 == 1 ==> v == -((r + 1) / 2)
    ensures v < 0 <==> r % 2 == 1
  {
    if r % 2 == 1 then -(r / 2) - 1 else r / 2
  }

  /** The format's zig-zag encoding: shift left by one, and invert the bits of a negative value. */
  function ZigZagEncode(v: int): (r: nat)
    ensures ZigZagDecode(r) == v
  {
    if v < 0 then -(2 * v) - 1 else 2 * v
  }

  lemma ZigZagDecodeThenEncode(r: nat)
    ensures ZigZagEncode(ZigZagDecode(r)) == r
  {
  }

  // ---------------------------------------------------------------------
  // The decoder: specification
  // ---------------------------------------------------------------------

  /**
   * The points decoded from index i on, given the running latitude and
   * longitude accumulators: latitude is read first, then longitude, and
   * each point is emitted longitude first.
   */
  function DecodeFrom(s: string, i: nat, lat: int, lng: int): (points: seq<Point>)
    ensures points == [] <==> i >= |s|
    decreases |s| - i
  {
    if i >= |s| then []
    else
      var la := ReadVarint(s, i);
      var ln := ReadVarint(s, la.1);
      var lat' := lat + ZigZagDecode(la.0);
      var lng' := lng + ZigZagDecode(ln.0);
      [(lng', lat')] + DecodeFrom(s, ln.1, lat', lng')
  }

  /** The whole decoding: the empty string, and only it, gives no points. */
  function Decode(s: string): (points: seq<Point>)
    ensures points == [] <==> s == ""
  {
    DecodeFrom(s, 0, 0, 0)
  }

  /** Each point consumes at least two characters, so there are at most ceil(|s| / 2) points. */
  lemma {:induction false} DecodeFromLength(s: string, i: nat, lat: int, lng: int)
    requires i <= |s|
    ensures 2 * |DecodeFrom(s, i, lat, lng)| <= |s| - i + 1
    decreases |s| - i
  {
    if i < |s| {
      var la := ReadVarint(s, i);
      var ln := ReadVarint(s, la.1);
      var lat' := lat + ZigZagDecode(la.0);
      var lng' := lng + ZigZagDecode(ln.0);
      if ln.1 <= |s| {
        DecodeFromLength(s, ln.1, lat', lng');
      }
    }
  }

  lemma DecodeLength(s: string)
    ensures |Decode(s)| <= (|s| + 1) / 2
  {
    DecodeFromLength(s, 0, 0, 0);
  }

  // ---------------------------------------------------------------------
  // Points are running sums of the deltas
  // ---------------------------------------------------------------------

  /** The (latitude, longitude) deltas read from index i on, before accumulation. */
  function DeltasFrom(s: string, i: nat): seq<(int, int)>
    decreases |s| - i
  {
    if i >= |s| then []
    else
      var la := ReadVarint(s, i);
      var ln := ReadVarint(s, la.1);
      [(ZigZagDecode(la.0), ZigZagDecode(ln.0))] + DeltasFrom(s, ln.1)
  }

  function Deltas(s: string): seq<(int, int)>
  {
    DeltasFrom(s, 0)
  }

  function SumLat(ds: seq<(int, int)>): int
  {
    if ds == [] then 0 else ds[0].0 + SumLat(ds[1..])
  }

  function SumLng(ds: seq<(int, int)>): int
  {
    if ds == [] then 0 else ds[0].1 + SumLng(ds[1..])
  }

  lemma {:induction false} DeltasFromLength(s: string, i: nat, lat: int, lng: int)
    ensures |DeltasFrom(s, i)| == |DecodeFrom(s, i, lat, lng)|
    decreases |s| - i
  {
    if i < |s| {
      var la := ReadVarint(s, i);
      var ln := ReadVarint(s, la.1);
      DeltasFromLength(s, ln.1, lat + ZigZagDecode(la.0), lng + ZigZagDecode(ln.0));
    }
  }

  lemma {:induction false} DecodeFromRunningSums(s: string, i: nat, lat: int, lng: int, k: nat)
    requires k < |DecodeFrom(s, i, lat, lng)|
    ensures |DeltasFrom(s, i)| == |DecodeFrom(s, i, lat, lng)|
    ensures DecodeFrom(s, i, lat, lng)[k]
         == (lng + SumLng(DeltasFrom(s, i)[..k + 1]), lat + SumLat(DeltasFrom(s, i)[..k + 1]))
    decreases |s| - i
  {
    DeltasFromLength(s, i, lat, lng);
    var la := ReadVarint(s, i);
    var ln := ReadVarint(s, la.1);
    var d := (ZigZagDecode(la.0), ZigZagDecode(ln.0));
    var lat' := lat + d.0;
    var lng' := lng + d.1;
    var ds := DeltasFrom(s, i);
    assert ds == [d] + DeltasFrom(s, ln.1);
    assert ds[..k + 1][1..] == DeltasFrom(s, ln.1)[..k];
    if k > 0 {
      DecodeFromRunningSums(s, ln.1, lat', lng', k - 1);
    } else {
      assert DeltasFrom(s, ln.1)[..0] == [];
    }
  }

  /** Point k's longitude and latitude are the sums of the first k + 1 deltas. */
  lemma DecodeRunningSums(s: string, k: nat)
    requires k < |Decode(s)|
    ensures |Deltas(s)| == |Decode(s)|
    ensures Decode(s)[k] == (SumLng(Deltas(s)[..k + 1]), SumLat(Deltas(s)[..k + 1]))
  {
    DecodeFromRunningSums(s, 0, 0, 0, k);
  }

  // ---------------------------------------------------------------------
  // The encoder of the format, and the round trip
  // ---------------------------------------------------------------------

  /** A non-negative integer in 5-bit groups, least significant first, each offset by 63. */
  function EncodeUnsigned(n: nat): (r: string)
    ensures |r| >= 1
    decreases n
  {
    if n < 32 then [(n + 63) as char]
    else [((n % 32) + 32 + 63) as char] + EncodeUnsigned(n / 32)
  }

  /** Every character lies in '?'..'~', the range whose groups the decoder reads as 0..63. */
  predicate Printable(s: string)
  {
    forall k :: 0 <= k < |s| ==> '?' <= s[k] <= '~'
  }

  lemma PrintableConcat(a: string, b: string)
    requires Printable(a) && Printable(b)
    ensures Printable(a + b)
  {
    assert forall k :: |a| <= k < |a + b| ==> (a + b)[k] == b[k - |a|];
  }

  /** The encoding of a number uses only the printable characters '?' to '~'. */
  lemma {:induction false} EncodeUnsignedChars(n: nat)
    ensures Printable(EncodeUnsigned(n))
    decreases n
  {
    if n >= 32 {
      EncodeUnsignedChars(n / 32);
      PrintableConcat([((n % 32) + 32 + 63) as char], EncodeUnsigned(n / 32));
    }
  }

  function EncodeSigned(v: int): string
  {
    EncodeUnsigned(ZigZagEncode(v))
  }

  /** One (latitude, longitude) point as its two deltas from the previous point, latitude first. */
  function EncodePoint(p: (int, int), lat: int, lng: int): string
  {
    EncodeSigned(p.0 - lat) + EncodeSigned(p.1 - lng)
  }

  /** (latitude, longitude) points as deltas from the previous point. */
  function EncodeFrom(path: seq<(int, int)>, lat: int, lng: int): string
  {
    if path == [] then ""
    else EncodePoint(path[0], lat, lng) + EncodeFrom(path[1..], path[0].0, path[0].1)
  }

  /** Encodes (latitude, longitude) points given in 1e-5 degrees. */
  function Encode(path: seq<(int, int)>): string
  {
    EncodeFrom(path, 0, 0)
  }

  /** The points with their coordinates swapped to (longitude, latitude). */
  function LngLat(path: seq<(int, int)>): (r: seq<Point>)
    ensures |r| == |path|
  {
    if path == [] then [] else [(path[0].1, path[0].0)] + LngLat(path[1..])
  }

  lemma {:induction false} LngLatAt(path: seq<(int, int)>, k: nat)
    requires k < |path|
    ensures LngLat(path)[k] == (path[k].1, path[k].0)
  {
    if k > 0 {
      LngLatAt(path[1..], k - 1);
    }
  }

  lemma {:induction false} ReadEncoded(pre: string, n: nat, post: string)
    ensures ReadVarint(pre + EncodeUnsigned(n) + post, |pre|) == (n, |pre| + |EncodeUnsigned(n)|)
    decreases n
  {
    var s := pre + EncodeUnsigned(n) + post;
    if n < 32 {
      assert s[|pre|] == (n + 63) as char;
    } else {
      var c := ((n % 32) + 32 + 63) as char;
      assert EncodeUnsigned(n) == [c] + EncodeUnsigned(n / 32);
      assert s == (pre + [c]) + EncodeUnsigned(n / 32) + post;
      assert s[|pre|] == c;
      ReadEncoded(pre + [c], n / 32, post);
    }
  }

  /** One step of DecodeFrom, given the two varints it reads. */
  lemma DecodeFromStep(s: string, i: nat, lat: int, lng: int, ra: nat, j: nat, rb: nat, k: nat)
    requires i < |s|
    requires ReadVarint(s, i) == (ra, j) && ReadVarint(s, j) == (rb, k)
    ensures DecodeFrom(s, i, lat, lng)
         == [(lng + ZigZagDecode(rb), lat + ZigZagDecode(ra))] + DecodeFrom(s, k, lat + ZigZagDecode(ra), lng + ZigZagDecode(rb))
  {
  }

  /** The ways of grouping four strings that the round trip needs. */
  lemma Regroup(pre: string, e1: string, e2: string, rest: string)
    ensures (pre + (e1 + e2)) + rest == (pre + e1) + (e2 + rest)
    ensures (pre + (e1 + e2)) + rest == ((pre + e1) + e2) + rest
    ensures |pre + (e1 + e2)| == |pre| + |e1| + |e2|
  {
  }

  /** The latitude delta of an encoded point reads back from where the point starts. */
  lemma ReadsLatDelta(pre: string, a: int, b: int, lat: int, lng: int, rest: string)
    ensures ReadVarint((pre + EncodePoint((a, b), lat, lng)) + rest, |pre|)
         == (ZigZagEncode(a - lat), |pre| + |EncodeSigned(a - lat)|)
  {
    var e1 := EncodeSigned(a - lat);
    var e2 := EncodeSigned(b - lng);
    Regroup(pre, e1, e2, rest);
    ReadEncoded(pre, ZigZagEncode(a - lat), e2 + rest);
  }

  /** The longitude delta reads back from where the latitude delta ends. */
  lemma ReadsLngDelta(pre: string, a: int, b: int, lat: int, lng: int, rest: string)
    ensures ReadVarint((pre + EncodePoint((a, b), lat, lng)) + rest, |pre| + |EncodeSigned(a - lat)|)
         == (ZigZagEncode(b - lng), |pre + EncodePoint((a, b), lat, lng)|)
  {
    var e1 := EncodeSigned(a - lat);
    var e2 := EncodeSigned(b - lng);
    Regroup(pre, e1, e2, rest);
    ReadEncoded(pre + e1, ZigZagEncode(b - lng), rest);
  }

  /** Decoding one encoded point: both deltas are recovered and the accumulators advance to the point. */
  lemma DecodeEncodedPoint(pre: string, a: int, b: int, lat: int, lng: int, rest: string)
    ensures DecodeFrom((pre + EncodePoint((a, b), lat, lng)) + rest, |pre|, lat, lng)
         == [(b, a)] + DecodeFrom((pre + EncodePoint((a, b), lat, lng)) + rest, |pre + EncodePoint((a, b), lat, lng)|, a, b)
  {
    var s := (pre + EncodePoint((a, b), lat, lng)) + rest;
    var j := |pre| + |EncodeSigned(a - lat)|;
    ReadsLatDelta(pre, a, b, lat, lng, rest);
    ReadsLngDelta(pre, a, b, lat, lng, rest);
    DecodeFromStep(s, |pre|, lat, lng, ZigZagEncode(a - lat), j, ZigZagEncode(b - lng), |pre + EncodePoint((a, b), lat, lng)|);
  }

  /** `pre` followed by the encoding of a non-empty path is `pre`, its first point and the rest. */
  lemma EncodeFromSplit(pre: string, path: seq<(int, int)>, lat: int, lng: int)
    requires path != []
    ensures pre + EncodeFrom(path, lat, lng) == (pre + EncodePoint(path[0], lat, lng)) + EncodeFrom(path[1..], path[0].0, path[0].1)
  {
  }

  lemma {:induction false} DecodeEncoded(pre: string, path: seq<(int, int)>, lat: int, lng: int)
    ensures DecodeFrom(pre + EncodeFrom(path, lat, lng), |pre|, lat, lng) == LngLat(path)
    decreases |path|
  {
    if path == [] {
      assert pre + EncodeFrom(path, lat, lng) == pre;
    } else {
      var p := path[0];
      var pre' := pre + EncodePoint(p, lat, lng);
      DecodeEncoded(pre', path[1..], p.0, p.1);
      EncodeFromSplit(pre, path, lat, lng);
      DecodeEncodedPoint(pre, p.0, p.1, lat, lng, EncodeFrom(path[1..], p.0, p.1));
    }
  }

  /** Decoding the format's encoding of any integer (latitude, longitude) path gives the path back, longitude first. */
  lemma RoundTrip(path: seq<(int, int)>)
    ensures Decode(Encode(path)) == LngLat(path)
  {
    DecodeEncoded("", path, 0, 0);
    assert "" + Encode(path) == Encode(path);
  }

  /** The encoder writes only characters whose groups the decoder reads as 0..63. */
  lemma {:induction false} EncodeFromPrintable(path: seq<(int, int)>, lat: int, lng: int)
    ensures Printable(EncodeFrom(path, lat, lng))
    decreases |path|
  {
    if path != [] {
      var p := path[0];
      EncodeUnsignedChars(ZigZagEncode(p.0 - lat));
      EncodeUnsignedChars(ZigZagEncode(p.1 - lng));
      PrintableConcat(EncodeSigned(p.0 - lat), EncodeSigned(p.1 - lng));
      EncodeFromPrintable(path[1..], p.0, p.1);
      PrintableConcat(EncodePoint(p, lat, lng), EncodeFrom(path[1..], p.0, p.1));
    }
  }

  lemma EncodePrintable(path: seq<(int, int)>)
    ensures Printable(Encode(path))
  {
    EncodeFromPrintable(path, 0, 0);
  }

  /** The reference vector of the format: (38.5, -120.2), (40.7, -120.95), (43.252, -126.453). */
  lemma ReferenceLat1()
    ensures EncodeSigned(3850000) == "_p~iF"
  {
    assert EncodeUnsigned(7) == "F";
    assert EncodeUnsigned(234) == "iF";
  }

  lemma ReferenceLng1()
    ensures EncodeSigned(-12020000) == "~ps|U"
  {
    assert EncodeUnsigned(22) == "U";
    assert EncodeUnsigned(733) == "|U";
  }

  lemma ReferenceLat2()
    ensures EncodeSigned(220000) == "_ulL"
  {
    assert EncodeUnsigned(13) == "L";
  }

  lemma ReferenceLng2()
    ensures EncodeSigned(-75000) == "nnqC"
  {
    assert EncodeUnsigned(4) == "C";
  }

  lemma ReferenceLat3()
    ensures EncodeSigned(255200) == "_mqN"
  {
    assert EncodeUnsigned(15) == "N";
  }

  lemma ReferenceLng3()
    ensures EncodeSigned(-550300) == "vxq`@"
  {
    assert EncodeUnsigned(1) == "@";
    assert EncodeUnsigned(33) == "`@";
  }

  lemma ReferenceFirstPoint()
    ensures EncodePoint((3850000, -12020000), 0, 0) == "_p~iF~ps|U"
  {
    ReferenceLat1();
    ReferenceLng1();
  }

  lemma ReferenceSecondPoint()
    ensures EncodePoint((4070000, -12095000), 3850000, -12020000) == "_ulLnnqC"
  {
    ReferenceLat2();
    ReferenceLng2();
  }

  lemma ReferenceThirdPoint()
    ensures EncodePoint((4325200, -12645300), 4070000, -12095000) == "_mqNvxq`@"
  {
    ReferenceLat3();
    ReferenceLng3();
  }

  /** A three-point path encodes as its three points in turn. */
  lemma EncodeThree(p: (int, int), q: (int, int), r: (int, int))
    ensures Encode([p, q, r]) == EncodePoint(p, 0, 0) + EncodePoint(q, p.0, p.1) + EncodePoint(r, q.0, q.1)
  {
    var path := [p, q, r];
    assert path[1..] == [q, r];
    assert path[1..][1..] == [r];
    assert path[1..][1..][1..] == [];
    var er := EncodePoint(r, q.0, q.1);
    var eq := EncodePoint(q, p.0, p.1);
    assert EncodeFrom([r], q.0, q.1) == er + "" == er;
    assert EncodeFrom([q, r], p.0, p.1) == eq + er;
  }

  /** The format's own encoding of the reference path (38.5, -120.2), (40.7, -120.95), (43.252, -126.453). */
  lemma ReferenceEncoding()
    ensures Encode([(3850000, -12020000), (4070000, -12095000), (4325200, -12645300)])
         == "_p~iF~ps|U_ulLnnqC_mqNvxq`@"
  {
    EncodeThree((3850000, -12020000), (4070000, -12095000), (4325200, -12645300));
    ReferenceFirstPoint();
    ReferenceSecondPoint();
    ReferenceThirdPoint();
  }

  /** Decoding the reference string gives the reference path, longitude first. */
  lemma ReferenceVector()
    ensures Decode("_p~iF~ps|U_ulLnnqC_mqNvxq`@")
         == [(-12020000, 3850000), (-12095000, 4070000), (-12645300, 4325200)]
  {
    var path := [(3850000, -12020000), (4070000, -12095000), (4325200, -12645300)];
    ReferenceEncoding();
    RoundTrip(path);
    assert LngLat(path) == [(-12020000, 3850000), (-12095000, 4070000), (-12645300, 4325200)];
  }

  // ---------------------------------------------------------------------
  // The decoder as the program runs it
  // ---------------------------------------------------------------------

  /** A new group's payload lands above the bits already in `result`. */
  lemma DisjointGroups(result: nat, p: nat, scale: nat)
    requires result < scale && p < 32
    ensures result + p * scale < 32 * scale
  {
    assert p * scale <= 31 * scale;
  }

  /**
   * One do-while loop of decodePolyline: reads groups from `start` until one
   * has its continuation bit clear, and returns the accumulated `result`
   * and the advanced `index`.
   */
  method ReadVarintAt(encoded: string, start: nat) returns (result: nat, index: nat)
    ensures (result, index) == ReadVarint(encoded, start)
  {
    index := start;
    var scale: nat := 1;  // 1 << shift, with shift starting at 0
    result := 0;
    while true
      invariant start <= index
      invariant scale == Pow32(index - start)
      invariant result < scale
      invariant result == ChunkSum(encoded, start, index - start)
      invariant ReadVarint(encoded, start).1 == ReadVarint(encoded, index).1
      decreases |encoded| + 1 - index
    {
      var b := Chunk(encoded, index);
      DisjointGroups(result, Payload(b), scale);
      assert ChunkSum(encoded, start, index + 1 - start) == result + Payload(b) * scale;
      assert Pow32(index + 1 - start) == 32 * scale;
      index := index + 1;
      // `result |= (b & 0x1f) << shift`: result < 2^shift, so the bits are disjoint and `|` adds
      result := result + Payload(b) * scale;
      // `shift += 5`
      scale := 32 * scale;
      if !Continues(b) {
        VarintIsChunkSum(encoded, start);
        return;
      }
    }
  }

  /** decodePolyline, with coordinates left in 1e-5 degrees. */
  method DecodePolyline(encoded: string) returns (points: seq<Point>)
    ensures points == Decode(encoded)
  {
    points := [];
    var index: nat := 0;
    var lat := 0;
    var lng := 0;
    while index < |encoded|
      invariant points + DecodeFrom(encoded, index, lat, lng) == Decode(encoded)
      decreases |encoded| - index
    {
      ghost var (start, lat0, lng0) := (index, lat, lng);
      var result;
      result, index := ReadVarintAt(encoded, index);
      var dlat := ZigZagDecode(result);
      lat := lat + dlat;

      result, index := ReadVarintAt(encoded, index);
      var dlng := ZigZagDecode(result);
      lng := lng + dlng;

      assert DecodeFrom(encoded, start, lat0, lng0) == [(lng, lat)] + DecodeFrom(encoded, index, lat, lng);
      points := points + [(lng, lat)];
    }
  }
}
