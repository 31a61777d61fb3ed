/** UTF-8 boundaries in byte strings. A `string` holds one byte per `char`. */
module Utf8 {

  predicate Continuation(c: char) {
    0x80 <= c as int < 0xC0
  }

  /** Lead byte and second byte of the three-byte rows of RFC 3629, section 4. */
  predicate LeadsThree(a: int, b: int) {
    || (a == 0xE0 && 0xA0 <= b <= 0xBF)
    || (0xE1 <= a <= 0xEC && 0x80 <= b <= 0xBF)
    || (a == 0xED && 0x80 <= b <= 0x9F)
    || (0xEE <= a <= 0xEF && 0x80 <= b <= 0xBF)
  }

  /** Lead byte and second byte of its four-byte rows. */
  predicate LeadsFour(a: int, b: int) {
    || (a == 0xF0 && 0x90 <= b <= 0xBF)
    || (0xF1 <= a <= 0xF3 && 0x80 <= b <= 0xBF)
    || (a == 0xF4 && 0x80 <= b <= 0x8F)
  }

  /** Bytes of the well-formed sequence `s` starts with, 0 when it starts with none. */
  function SequenceLength(s: string): (n: nat)
    ensures n <= |s| && n <= 4
  {
    if |s| >= 1 && s[0] as int < 0x80 then 1
    else if |s| >= 2 && 0xC2 <= s[0] as int <= 0xDF && Continuation(s[1]) then 2
    else if |s| >= 3 && LeadsThree(s[0] as int, s[1] as int) && Continuation(s[2]) then 3
    else if |s| >= 4 && LeadsFour(s[0] as int, s[1] as int) && Continuation(s[2]) && Continuation(s[3]) then 4
    else 0
  }

  lemma SequenceShape(s: string)
    ensures SequenceLength(s) > 0 ==> !Continuation(s[0])
    ensures forall k :: 1 <= k < SequenceLength(s) ==> Continuation(s[k])
  {
  }

  /** Well-formed UTF-8: section 4 of RFC 3629. */
  predicate Valid(s: string) {
    s == "" || (SequenceLength(s) > 0 && Valid(s[SequenceLength(s)..]))
  }

  // ---------------------------------------------------------------- against the encoding itself

  /** A Unicode scalar value: RFC 3629, section 3. */
  predicate Scalar(c: nat) {
    c <= 0x10FFFF && !(0xD800 <= c <= 0xDFFF)
  }

  function Byte(n: nat): (c: char)
    requires n < 0x100
    ensures c as int == n
  {
    n as char
  }

  /** How section 3 of RFC 3629 encodes one. */
  function Encoded(c: nat): (s: string)
    requires Scalar(c)
    ensures 1 <= |s| <= 4
  {
    if c < 0x80 then [Byte(c)]
    else if c < 0x800 then [Byte(0xC0 + c / 64), Byte(0x80 + c % 64)]
    else if c < 0x1_0000 then [Byte(0xE0 + c / 4096), Byte(0x80 + c / 64 % 64), Byte(0x80 + c % 64)]
    else [Byte(0xF0 + c / 262144), Byte(0x80 + c / 4096 % 64), Byte(0x80 + c / 64 % 64), Byte(0x80 + c % 64)]
  }

  type ScalarValue = c: nat | Scalar(c)

  function EncodedAll(text: seq<ScalarValue>): string {
    if text == [] then "" else Encoded(text[0]) + EncodedAll(text[1..])
  }

  lemma EncodedStarts(c: nat, rest: string)
    requires Scalar(c)
    ensures SequenceLength(Encoded(c) + rest) == |Encoded(c)|
  {
    var e := Encoded(c);
    assert forall k | 0 <= k < |e| :: (e + rest)[k] == e[k];
  }

  lemma TwoBytes(a: nat, b: nat, c: nat)
    requires 0xC2 <= a <= 0xDF && 0x80 <= b < 0xC0 && c == (a - 0xC0) * 64 + (b - 0x80)
    ensures 0x80 <= c < 0x800 && 0xC0 + c / 64 == a && 0x80 + c % 64 == b
  {
  }

  lemma ThreeBytes(a: nat, b: nat, d: nat, c: nat)
    requires LeadsThree(a, b) && 0x80 <= d < 0xC0 && c == ((a - 0xE0) * 64 + (b - 0x80)) * 64 + (d - 0x80)
    ensures 0x800 <= c < 0x1_0000 && !(0xD800 <= c <= 0xDFFF)
    ensures 0xE0 + c / 4096 == a && 0x80 + c / 64 % 64 == b && 0x80 + c % 64 == d
  {
    assert c / 64 == (a - 0xE0) * 64 + (b - 0x80);
  }

  lemma FourBytes(a: nat, b: nat, d: nat, e: nat, c: nat)
    requires LeadsFour(a, b) && 0x80 <= d < 0xC0 && 0x80 <= e < 0xC0
    requires c == (((a - 0xF0) * 64 + (b - 0x80)) * 64 + (d - 0x80)) * 64 + (e - 0x80)
    ensures 0x1_0000 <= c <= 0x10FFFF
    ensures 0xF0 + c / 262144 == a && 0x80 + c / 4096 % 64 == b && 0x80 + c / 64 % 64 == d && 0x80 + c % 64 == e
  {
    assert c / 64 == ((a - 0xF0) * 64 + (b - 0x80)) * 64 + (d - 0x80);
    assert c / 4096 == (a - 0xF0) * 64 + (b - 0x80);
  }

  lemma FirstBytes(s: string)
    requires |s| >= 1
    ensures s[..1] == [s[0]] && (|s| >= 2 ==> s[..2] == [s[0], s[1]])
    ensures |s| >= 3 ==> s[..3] == [s[0], s[1], s[2]]
    ensures |s| >= 4 ==> s[..4] == [s[0], s[1], s[2], s[3]]
  {
  }

  /** The value a first sequence encodes. */
  lemma Decoded(s: string) returns (c: nat)
    requires SequenceLength(s) > 0
    ensures Scalar(c) && s[..SequenceLength(s)] == Encoded(c)
  {
    var n, a := SequenceLength(s), s[0] as int;
    FirstBytes(s);
    if n == 1 {
      c := a;
    } else if n == 2 {
      c := (a - 0xC0) * 64 + (s[1] as int - 0x80);
      TwoBytes(a, s[1] as int, c);
    } else if n == 3 {
      c := ((a - 0xE0) * 64 + (s[1] as int - 0x80)) * 64 + (s[2] as int - 0x80);
      ThreeBytes(a, s[1] as int, s[2] as int, c);
    } else {
      c := (((a - 0xF0) * 64 + (s[1] as int - 0x80)) * 64 + (s[2] as int - 0x80)) * 64 + (s[3] as int - 0x80);
      FourBytes(a, s[1] as int, s[2] as int, s[3] as int, c);
    }
  }

  lemma EncodedMore(c: ScalarValue, rest: seq<ScalarValue>)
    ensures EncodedAll([c] + rest) == Encoded(c) + EncodedAll(rest)
  {
    assert ([c] + rest)[1..] == rest;
  }

  lemma {:induction false} EncodedIsValid(text: seq<ScalarValue>)
    ensures Valid(EncodedAll(text))
  {
    if text != [] {
      var first, rest := Encoded(text[0]), EncodedAll(text[1..]);
      EncodedIsValid(text[1..]);
      EncodedStarts(text[0], rest);
      assert (first + rest)[|first|..] == rest;
    }
  }

  lemma FirstAndRest(s: string, n: nat, first: string, rest: string)
    requires n <= |s| && first == s[..n] && rest == s[n..]
    ensures s == first + rest
  {
  }

  lemma {:induction false} ValidIsEncoded(s: string) returns (text: seq<ScalarValue>)
    requires Valid(s)
    ensures s == EncodedAll(text)
  {
    if s == "" {
      text := [];
    } else {
      var n := SequenceLength(s);
      var c := Decoded(s);
      var rest := ValidIsEncoded(s[n..]);
      FirstAndRest(s, n, Encoded(c), EncodedAll(rest));
      EncodedMore(c, rest);
      text := [c] + rest;
    }
  }

  /** Well-formed is what encodes some text. */
  lemma ValidMeansEncoded(s: string)
    ensures Valid(s) <==> exists text: seq<ScalarValue> :: s == EncodedAll(text)
  {
    if Valid(s) {
      var text := ValidIsEncoded(s);
    }
    if text: seq<ScalarValue> :| s == EncodedAll(text) {
      EncodedIsValid(text);
    }
  }

  // ---------------------------------------------------------------- boundaries

  /** `i` is not inside a codepoint of `s`. */
  predicate Boundary(s: string, i: nat) {
    i == |s| || (i < |s| && !Continuation(s[i]))
  }

  lemma ValidSequence(s: string, n: nat)
    requires n == SequenceLength(s) > 0 && Valid(s[n..])
    ensures Valid(s)
  {
  }

  lemma SequenceLengthOfExtension(s: string, t: string)
    requires SequenceLength(s) > 0
    ensures SequenceLength(s + t) == SequenceLength(s)
  {
  }

  lemma ValidAfterFirst(a: string, b: string, n: nat)
    requires n == SequenceLength(a) > 0 && Valid(a[n..] + b)
    ensures Valid(a + b)
  {
    SequenceLengthOfExtension(a, b);
    assert (a + b)[n..] == a[n..] + b;
    ValidSequence(a + b, n);
  }

  lemma {:induction false} ConcatIsValid(a: string, b: string)
    requires Valid(a) && Valid(b)
    ensures Valid(a + b)
  {
    if a == "" {
      assert a + b == b;
    } else {
      var n := SequenceLength(a);
      ConcatIsValid(a[n..], b);
      ValidAfterFirst(a, b, n);
    }
  }

  lemma SequenceLengthOfPrefix(s: string, i: nat)
    requires SequenceLength(s) <= i <= |s|
    ensures SequenceLength(s[..i]) == SequenceLength(s)
  {
  }

  /** A boundary after the start is at or past the end of the first sequence. */
  lemma BoundaryPastFirst(s: string, i: nat)
    requires s != "" && Valid(s) && Boundary(s, i) && i > 0
    ensures i >= SequenceLength(s) && Boundary(s[SequenceLength(s)..], i - SequenceLength(s))
  {
    SequenceShape(s);
  }

  lemma ValidBeforeCut(s: string, i: nat, n: nat)
    requires 0 < n == SequenceLength(s) <= i <= |s| && Valid(s[n..][..i - n])
    ensures Valid(s[..i])
  {
    assert s[..i][n..] == s[n..][..i - n];
    SequenceLengthOfPrefix(s, i);
    ValidSequence(s[..i], n);
  }

  /** Cutting a well-formed string at a boundary leaves two well-formed strings. */
  lemma {:induction false} SplitIsValid(s: string, i: nat)
    requires Valid(s) && Boundary(s, i)
    ensures Valid(s[..i]) && Valid(s[i..])
  {
    if i == 0 {
      assert s[0..] == s;
    } else {
      var n := SequenceLength(s);
      BoundaryPastFirst(s, i);
      SplitIsValid(s[n..], i - n);
      assert s[n..][i - n..] == s[i..];
      ValidBeforeCut(s, i, n);
    }
  }

  /** And only cuts at boundaries do. */
  lemma {:induction false} ValidPrefixEndsOnBoundary(s: string, i: nat)
    requires i <= |s| && Valid(s) && Valid(s[..i])
    ensures Boundary(s, i)
  {
    if i == 0 {
      SequenceShape(s);
    } else {
      var n := SequenceLength(s[..i]);
      SequenceLengthOfExtension(s[..i], s[i..]);
      assert s[..i] + s[i..] == s;
      assert s[n..][..i - n] == s[..i][n..];
      ValidPrefixEndsOnBoundary(s[n..], i - n);
    }
  }

  /** A codepoint has at most three continuation bytes. */
  lemma {:induction false} BoundaryWithinFour(s: string, i: nat) returns (k: nat)
    requires Valid(s) && i + 3 < |s|
    ensures i <= k <= i + 3 && Boundary(s, k)
  {
    var n := SequenceLength(s);
    SequenceShape(s);
    if i == 0 {
      k := 0;
    } else if i >= n {
      k := BoundaryWithinFour(s[n..], i - n);
      k := k + n;
    } else {
      SequenceShape(s[n..]);
      k := n;
    }
  }

  /** What Utf8BoundaryBefore computes: the offset itself at or past the end,
      otherwise the nearest byte at or before it that is not a continuation. */
  function BoundaryBefore(s: string, offset: nat): (r: nat)
    ensures r <= offset && r <= |s|
    ensures r == 0 || Boundary(s, r)
    ensures offset >= |s| ==> r == |s|
  {
    if offset >= |s| then |s|
    else if offset > 0 && Continuation(s[offset]) then BoundaryBefore(s, offset - 1)
    else offset
  }

  /** What Utf8BoundaryAfter computes: the nearest boundary at or after the offset. */
  function BoundaryAfter(s: string, offset: nat): (r: nat)
    ensures r <= |s| && (offset <= |s| ==> offset <= r)
    ensures Boundary(s, r)
    decreases |s| - offset
  {
    if offset >= |s| then |s|
    else if Continuation(s[offset]) then BoundaryAfter(s, offset + 1)
    else offset
  }

  /** Nothing nearer than the boundary found would have done. */
  lemma {:induction false} NearestBefore(s: string, offset: nat)
    ensures forall k :: BoundaryBefore(s, offset) < k <= offset && k < |s| ==> Continuation(s[k])
  {
    if 0 < offset < |s| && Continuation(s[offset]) {
      NearestBefore(s, offset - 1);
    }
  }

  lemma {:induction false} NearestAfter(s: string, offset: nat)
    ensures forall k :: offset <= k < BoundaryAfter(s, offset) ==> Continuation(s[k])
    decreases |s| - offset
  {
    if offset < |s| && Continuation(s[offset]) {
      NearestAfter(s, offset + 1);
    }
  }

  lemma BoundariesAreMonotone(s: string, a: nat, b: nat)
    requires a <= b
    ensures BoundaryBefore(s, a) <= BoundaryBefore(s, b)
    ensures BoundaryAfter(s, a) <= BoundaryAfter(s, b)
  {
    NearestBefore(s, b);
    NearestAfter(s, a);
  }

  /** In well-formed text no boundary is more than three bytes away. */
  lemma BoundariesAreNear(s: string, offset: nat)
    requires Valid(s) && offset < |s|
    ensures BoundaryBefore(s, offset) + 3 >= offset
    ensures BoundaryAfter(s, offset) <= offset + 3
  {
    NearestBefore(s, offset);
    NearestAfter(s, offset);
    if offset >= 3 {
      var k := BoundaryWithinFour(s, offset - 3);
    }
    if offset + 3 < |s| {
      var k := BoundaryWithinFour(s, offset);
    }
  }

  function Prefix(s: string, cap: nat): (r: string)
    ensures |r| <= cap && r <= s
    ensures |s| <= cap ==> r == s
  {
    if |s| <= cap then s else s[..BoundaryBefore(s, cap)]
  }

  /** A capped prefix ends at the nearest boundary at or before the cap. */
  lemma PrefixIsNearest(s: string, cap: nat)
    requires |s| > cap
    ensures var n := |Prefix(s, cap)|;
            (n == 0 || Boundary(s, n)) && forall k | n < k <= cap :: Continuation(s[k])
  {
    NearestBefore(s, cap);
  }

  lemma PrefixIsValid(s: string, cap: nat)
    requires Valid(s)
    ensures Valid(Prefix(s, cap))
  {
    if |s| > cap {
      SplitIsValid(s, BoundaryBefore(s, cap));
    }
  }

  method SeekBoundaryBefore(s: string, offset: nat) returns (r: nat)
    ensures r == BoundaryBefore(s, offset)
  {
    r := if offset < |s| then offset else |s|;
    while r > 0 && r < |s| && Continuation(s[r])
      invariant r <= |s|
      invariant BoundaryBefore(s, r) == BoundaryBefore(s, offset)
    {
      r := r - 1;
    }
  }

  method SeekBoundaryAfter(s: string, offset: nat) returns (r: nat)
    ensures r == BoundaryAfter(s, offset)
  {
    r := if offset < |s| then offset else |s|;
    while r < |s| && Continuation(s[r])
      invariant r <= |s|
      invariant BoundaryAfter(s, r) == BoundaryAfter(s, offset)
    {
      r := r + 1;
    }
  }

  /** Looking for a boundary in a suffix or in the whole text is the same search. */
  lemma {:induction false} BoundaryAfterInSuffix(s: string, from: nat, offset: nat)
    requires from + offset <= |s|
    ensures BoundaryAfter(s, from + offset) == from + BoundaryAfter(s[from..], offset)
    decreases |s| - offset
  {
    if from + offset < |s| && Continuation(s[from + offset]) {
      BoundaryAfterInSuffix(s, from, offset + 1);
    }
  }
}
