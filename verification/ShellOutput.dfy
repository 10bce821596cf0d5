/**
 Excerpts of shell output for the model: the beginning and the end of a stream with a marker
 between them, within a budget of UTF-8 bytes, cut between code points.
 */
module ShellOutput {
  import opened Decimal

  const BUDGET := 12 * 1024

  type Byte = b: int | 0 <= b < 256

  /** The two highest bits are 10. */
  predicate IsContinuation(b: Byte) {
    0x80 <= b < 0xC0
  }

  predicate Tail(bytes: seq<Byte>) {
    forall k :: 0 <= k < |bytes| ==> IsContinuation(bytes[k])
  }

  /** The byte sequences that encode one code point; section 4 of RFC 3629. */
  predicate IsCodePoint(u: seq<Byte>) {
    || (|u| == 1 && u[0] < 0x80)
    || (|u| == 2 && 0xC2 <= u[0] < 0xE0 && Tail(u[1..]))
    || (|u| == 3 && 0xE0 <= u[0] < 0xF0 && Tail(u[1..]) && (u[0] == 0xE0 ==> 0xA0 <= u[1]) && (u[0] == 0xED ==> u[1] < 0xA0))
    || (|u| == 4 && 0xF0 <= u[0] < 0xF5 && Tail(u[1..]) && (u[0] == 0xF0 ==> 0x90 <= u[1]) && (u[0] == 0xF4 ==> u[1] < 0x90))
  }

  /** A code point, given by its encoding. */
  type CodePoint = u: seq<Byte> | IsCodePoint(u) witness [0]

  /** A scalar value of Unicode: any code up to 10FFFF that is no surrogate. */
  predicate IsScalar(n: int) {
    0 <= n < 0xD800 || 0xE000 <= n < 0x11_0000
  }

  /** The bytes of a scalar value; the table in section 3 of RFC 3629. */
  function Utf8(n: int): seq<Byte>
    requires IsScalar(n)
  {
    if n < 0x80 then [n]
    else if n < 0x800 then [0xC0 + n / 64, 0x80 + n % 64]
    else if n < 0x1_0000 then [0xE0 + n / 4096, 0x80 + n / 64 % 64, 0x80 + n % 64]
    else [0xF0 + n / 26_2144, 0x80 + n / 4096 % 64, 0x80 + n / 64 % 64, 0x80 + n % 64]
  }

  /** What the low six bits of a byte add. */
  function Six(b: Byte): int {
    b - 0x80
  }

  /** The scalar value that bytes stand for. */
  function Scalar(u: seq<Byte>): int
    requires IsCodePoint(u)
  {
    var first: int := u[0];
    if |u| == 1 then first
    else if |u| == 2 then 64 * (first - 0xC0) + Six(u[1])
    else if |u| == 3 then 64 * (64 * (first - 0xE0) + Six(u[1])) + Six(u[2])
    else 64 * (64 * (64 * (first - 0xF0) + Six(u[1])) + Six(u[2])) + Six(u[3])
  }

  /** Every scalar value has its bytes, */
  lemma ScalarEncoded(n: int)
    requires IsScalar(n)
    ensures IsCodePoint(Utf8(n))
  {
  }

  lemma SixBits(high: int, low: int)
    requires 0 <= low < 64
    ensures (64 * high + low) / 64 == high && (64 * high + low) % 64 == low
  {
  }

  lemma TwoBytes(u: seq<Byte>)
    requires IsCodePoint(u) && |u| == 2
    ensures 0x80 <= Scalar(u) < 0x800 && Utf8(Scalar(u)) == u
  {
    SixBits(u[0] - 0xC0, Six(u[1]));
  }

  lemma ThreeBytes(u: seq<Byte>)
    requires IsCodePoint(u) && |u| == 3
    ensures 0x800 <= Scalar(u) < 0x1_0000 && IsScalar(Scalar(u)) && Utf8(Scalar(u)) == u
  {
    var high := 64 * (u[0] - 0xE0) + Six(u[1]);
    SixBits(u[0] - 0xE0, Six(u[1]));
    SixBits(high, Six(u[2]));
    assert Scalar(u) / 4096 == Scalar(u) / 64 / 64;
  }

  lemma FourBytes(u: seq<Byte>)
    requires IsCodePoint(u) && |u| == 4
    ensures 0x1_0000 <= Scalar(u) < 0x11_0000 && Utf8(Scalar(u)) == u
  {
    var high := 64 * (u[0] - 0xF0) + Six(u[1]);
    SixBits(u[0] - 0xF0, Six(u[1]));
    SixBits(high, Six(u[2]));
    SixBits(64 * high + Six(u[2]), Six(u[3]));
    assert Scalar(u) / 4096 == Scalar(u) / 64 / 64 && Scalar(u) / 26_2144 == Scalar(u) / 64 / 64 / 64;
  }

  /** and these are all there are. */
  lemma CodePointScalar(u: seq<Byte>)
    requires IsCodePoint(u)
    ensures IsScalar(Scalar(u)) && Utf8(Scalar(u)) == u
  {
    if |u| == 2 {
      TwoBytes(u);
    } else if |u| == 3 {
      ThreeBytes(u);
    } else if |u| == 4 {
      FourBytes(u);
    }
  }

  /** All that matters for cutting: only the first byte of a code point is no continuation byte. */
  lemma CodePointShape(c: CodePoint)
    ensures 1 <= |c| <= 4 && !IsContinuation(c[0]) && forall k :: 1 <= k < |c| ==> IsContinuation(c[k])
  {
  }

  function Encode(s: seq<CodePoint>): seq<Byte> {
    if s == [] then [] else Encode(s[..|s| - 1]) + s[|s| - 1]
  }

  /** Where code point `i` begins, or the end of the text. */
  function Offset(s: seq<CodePoint>, i: nat): nat
    requires i <= |s|
  {
    |Encode(s[..i])|
  }

  lemma {:induction false} EncodeConcat(s: seq<CodePoint>, t: seq<CodePoint>)
    ensures Encode(s + t) == Encode(s) + Encode(t)
  {
    if t == [] {
      assert s + t == s;
    } else {
      var t', c := t[..|t| - 1], t[|t| - 1];
      assert (s + t)[..|s + t| - 1] == s + t';
      EncodeConcat(s, t');
    }
  }

  /** The bytes up to the start of a code point encode the code points before it, and those after it the rest. */
  lemma SplitAt(s: seq<CodePoint>, i: nat)
    requires i <= |s|
    ensures Offset(s, i) <= |Encode(s)|
    ensures Encode(s)[..Offset(s, i)] == Encode(s[..i]) && Encode(s)[Offset(s, i)..] == Encode(s[i..])
  {
    assert s == s[..i] + s[i..];
    EncodeConcat(s[..i], s[i..]);
  }

  lemma NextOffset(s: seq<CodePoint>, i: nat)
    requires i < |s|
    ensures Offset(s, i + 1) == Offset(s, i) + |s[i]| && 1 <= |s[i]| <= 4
  {
    CodePointShape(s[i]);
    assert s[..i + 1][..i] == s[..i];
  }

  lemma {:induction false} OffsetsRise(s: seq<CodePoint>, i: nat, j: nat)
    requires i < j <= |s|
    ensures Offset(s, i) < Offset(s, j)
    decreases j
  {
    NextOffset(s, j - 1);
    if i < j - 1 {
      OffsetsRise(s, i, j - 1);
    }
  }

  lemma ByteAt(s: seq<CodePoint>, i: nat, k: nat)
    requires i < |s| && k < |s[i]|
    ensures Offset(s, i) + k < |Encode(s)| && Encode(s)[Offset(s, i) + k] == s[i][k]
  {
    SplitAt(s, i + 1);
    NextOffset(s, i);
    assert s[..i + 1][..i] == s[..i];
    assert Encode(s)[..Offset(s, i + 1)][Offset(s, i) + k] == s[i][k];
  }

  /** Byte `p` belongs to code point `i`. */
  ghost predicate Within(s: seq<CodePoint>, p: nat, i: nat) {
    i < |s| && Offset(s, i) <= p < Offset(s, i) + |s[i]|
  }

  lemma {:induction false} SomeCodePoint(s: seq<CodePoint>, p: nat, n: nat)
    requires n <= |s| && p < Offset(s, n)
    ensures exists i :: Within(s, p, i)
    decreases n
  {
    assert Offset(s, 0) == 0;
    NextOffset(s, n - 1);
    if p < Offset(s, n - 1) {
      SomeCodePoint(s, p, n - 1);
    } else {
      assert Within(s, p, n - 1);
    }
  }

  /** Between the start of a code point and byte `p` of it, just the start is no continuation byte. */
  lemma StartOrContinuation(s: seq<CodePoint>, p: nat, i: nat)
    requires Within(s, p, i)
    ensures p < |Encode(s)|
    ensures IsContinuation(Encode(s)[p]) <==> p != Offset(s, i)
  {
    ByteAt(s, i, p - Offset(s, i));
    CodePointShape(s[i]);
  }

  /** The code points of an ASCII string. */
  function Ascii(s: string): (points: seq<CodePoint>)
    requires forall i :: 0 <= i < |s| ==> s[i] < 128 as char
    ensures |points| == |s| && forall i :: 0 <= i < |s| ==> |points[i]| == 1
  {
    seq(|s|, i requires 0 <= i < |s| => [s[i] as int])
  }

  lemma {:induction false} AsciiLength(points: seq<CodePoint>)
    requires forall i :: 0 <= i < |points| ==> |points[i]| == 1
    ensures |Encode(points)| == |points|
  {
    if points != [] {
      AsciiLength(points[..|points| - 1]);
    }
  }

  /** After the start of the last code point there are only continuation bytes. */
  lemma LastStart(s: seq<CodePoint>, p: nat)
    requires s != []
    ensures Offset(s, |s| - 1) < |Encode(s)| && !IsContinuation(Encode(s)[Offset(s, |s| - 1)])
    ensures Offset(s, |s| - 1) < p < |Encode(s)| ==> IsContinuation(Encode(s)[p])
  {
  }

  /** The last code points of texts with the same encoding begin at the same place and are equal. */
  lemma SameLast(s: seq<CodePoint>, t: seq<CodePoint>)
    requires Encode(s) == Encode(t) && s != [] && t != []
    ensures Encode(s[..|s| - 1]) == Encode(t[..|t| - 1]) && s[|s| - 1] == t[|t| - 1]
  {
    var m, n := |s| - 1, |t| - 1;
    LastStart(s, Offset(t, n));
    LastStart(t, Offset(s, m));
    assert Offset(s, m) == Offset(t, n);
    assert Encode(s)[..Offset(s, m)] == Encode(s[..m]) && Encode(s)[Offset(s, m)..] == s[m];
    assert Encode(t)[..Offset(t, n)] == Encode(t[..n]) && Encode(t)[Offset(t, n)..] == t[n];
  }

  /** Texts with the same encoding are equal, so whole code points can be read back in one way only. */
  lemma {:induction false} EncodeInjective(s: seq<CodePoint>, t: seq<CodePoint>)
    requires Encode(s) == Encode(t)
    ensures s == t
    decreases s
  {
    if s != [] && t != [] {
      SameLast(s, t);
      EncodeInjective(s[..|s| - 1], t[..|t| - 1]);
      assert s == s[..|s| - 1] + [s[|s| - 1]] && t == t[..|t| - 1] + [t[|t| - 1]];
    }
  }

  // ---------------------------------------------------------------- excerpts

  /** The text as UTF-8; `retained` counts source bytes, without the marker. */
  datatype Excerpt = Excerpt(text: seq<Byte>, retained: nat, omitted: nat)

  function OmissionMarker(bytes: nat): (marker: seq<CodePoint>)
    ensures |Encode(marker)| == |marker| == |Numeral(bytes)| + 32
  {
    NumeralDigits(bytes);
    var marker := Ascii("\n... [") + Ascii(Numeral(bytes)) + Ascii(" UTF-8 bytes omitted] ...\n");
    AsciiLength(marker);
    marker
  }

  function Available(bytes: nat, maxBytes: nat): nat {
    var reserved := |OmissionMarker(bytes)|;
    if reserved >= maxBytes then 0 else maxBytes - reserved
  }

  /** Code points `i` and `j` are where the head ends and the tail starts: as late and as early as the budget allows. */
  ghost predicate Cuts(value: seq<CodePoint>, available: nat, i: nat, j: nat) {
    && i <= |value| && j <= |value|
    && Offset(value, i) <= available / 2
    && (i < |value| ==> available / 2 < Offset(value, i + 1))
    && |Encode(value)| - (available - available / 2) <= Offset(value, j)
    && (j > 0 ==> Offset(value, j - 1) < |Encode(value)| - (available - available / 2))
  }

  /** What an excerpt of a text that does not fit has to be. */
  ghost predicate IsCut(value: seq<CodePoint>, maxBytes: nat, r: Excerpt, i: nat, j: nat) {
    var bytes := |Encode(value)|;
    && Cuts(value, Available(bytes, maxBytes), i, j) && i <= j
    && r.retained == Offset(value, i) + bytes - Offset(value, j)
    && r.omitted == Offset(value, j) - Offset(value, i)
    && r.text == if |OmissionMarker(r.omitted)| > maxBytes then [] else Encode(value[..i] + OmissionMarker(r.omitted) + value[j..])
  }

  /** The last start of a code point not after `p`. */
  method StartBefore(value: seq<CodePoint>, p: nat) returns (headEnd: nat, ghost i: nat)
    requires p < |Encode(value)|
    ensures i < |value| && headEnd == Offset(value, i) <= p < Offset(value, i + 1)
    ensures p - headEnd <= 3
  {
    var buffer := Encode(value);
    SplitAt(value, |value|);
    assert value[..|value|] == value;
    SomeCodePoint(value, p, |value|);
    i :| Within(value, p, i);
    NextOffset(value, i);
    headEnd := p;
    StartOrContinuation(value, p, i);
    while headEnd > 0 && IsContinuation(buffer[headEnd])
      invariant Offset(value, i) <= headEnd <= p
      invariant Within(value, headEnd, i)
    {
      StartOrContinuation(value, headEnd, i);
      headEnd := headEnd - 1;
    }
    StartOrContinuation(value, headEnd, i);
  }

  /** The first start of a code point at `p` or later, or the end of the text. */
  method StartAfter(value: seq<CodePoint>, p: nat) returns (tailStart: nat, ghost j: nat)
    requires p <= |Encode(value)|
    ensures j <= |value| && p <= tailStart == Offset(value, j) && (j > 0 ==> Offset(value, j - 1) < p)
    ensures tailStart - p <= 3
  {
    var buffer := Encode(value);
    assert value[..|value|] == value;
    tailStart := p;
    if p == |buffer| {
      j := |value|;
      if j > 0 {
        OffsetsRise(value, j - 1, j);
      }
      return;
    }
    ghost var i: nat;
    SomeCodePoint(value, p, |value|);
    i :| Within(value, p, i);
    NextOffset(value, i);
    SplitAt(value, i + 1);
    j := if p == Offset(value, i) then i else i + 1;
    if j == i && i > 0 {
      OffsetsRise(value, i - 1, i);
    }
    while tailStart < |buffer| && IsContinuation(buffer[tailStart])
      invariant p <= tailStart <= Offset(value, j)
      invariant tailStart <= |buffer|
    {
      if tailStart == Offset(value, j) {
        if j < |value| {
          NextOffset(value, j);
          StartOrContinuation(value, tailStart, j);
        }
      }
      tailStart := tailStart + 1;
    }
    if tailStart < Offset(value, j) {
      StartOrContinuation(value, tailStart, i);
    }
  }

  /** What an excerpt of `value` within `maxBytes` has to be. */
  ghost predicate IsExcerpt(value: seq<CodePoint>, maxBytes: nat, r: Excerpt) {
    if |Encode(value)| <= maxBytes then r == Excerpt(Encode(value), |Encode(value)|, 0)
    else exists i, j :: IsCut(value, maxBytes, r, i, j)
  }

  /** An excerpt of at most `maxBytes` bytes of UTF-8, the marker included. */
  method ShellOutputExcerpt(value: seq<CodePoint>, maxBytes: nat) returns (r: Excerpt)
    ensures IsExcerpt(value, maxBytes, r)
  {
    var buffer := Encode(value);
    var bytes := |buffer|;
    if bytes <= maxBytes {
      return Excerpt(buffer, bytes, 0);
    }
    var available := Available(bytes, maxBytes);
    var headEnd, tailStart: nat;
    ghost var i, j;
    headEnd, i := StartBefore(value, available / 2);
    tailStart, j := StartAfter(value, bytes - (available - available / 2));
    if j < i {
      OffsetsRise(value, j, i);
    }
    var retained := headEnd + bytes - tailStart;
    var omitted := bytes - retained;
    var marker := OmissionMarker(omitted);
    SplitAt(value, i);
    SplitAt(value, j);
    EncodeConcat(value[..i], marker);
    EncodeConcat(value[..i] + marker, value[j..]);
    var text := if |marker| > maxBytes then [] else buffer[..headEnd] + Encode(marker) + buffer[tailStart..];
    r := Excerpt(text, retained, omitted);
    assert IsCut(value, maxBytes, r, i, j);
  }

  /** Less than one code point is lost at each cut. */
  lemma AlignmentLoss(value: seq<CodePoint>, available: nat, i: nat, j: nat)
    requires available < |Encode(value)| && Cuts(value, available, i, j)
    ensures i < |value| && available / 2 - Offset(value, i) <= 3
    ensures Offset(value, j) - (|Encode(value)| - (available - available / 2)) <= 3
    ensures Offset(value, j) <= |Encode(value)|
  {
    assert value[..|value|] == value;
    NextOffset(value, i);
    SplitAt(value, j);
    if j > 0 {
      NextOffset(value, j - 1);
    }
  }

  /**
   A text that does not fit: head and tail are disjoint, what is kept and what is omitted add up
   to the text, at most six of the available bytes are lost by cutting between code points, and
   the excerpt with its marker fits.
   */
  lemma CutWithinBudget(value: seq<CodePoint>, maxBytes: nat, r: Excerpt, i: nat, j: nat)
    requires |Encode(value)| > maxBytes && IsCut(value, maxBytes, r, i, j)
    ensures var bytes := |Encode(value)|;
      && |r.text| <= maxBytes && r.retained + r.omitted == bytes && r.omitted > 0
      && r.retained <= Available(bytes, maxBytes) <= r.retained + 6
    ensures r.text != [] ==> |r.text| == r.retained + |Numeral(r.omitted)| + 32
  {
    var bytes := |Encode(value)|;
    AlignmentLoss(value, Available(bytes, maxBytes), i, j);
    NumeralMonotone(r.omitted, bytes);
    SplitAt(value, i);
    SplitAt(value, j);
    EncodeConcat(value[..i], OmissionMarker(r.omitted));
    EncodeConcat(value[..i] + OmissionMarker(r.omitted), value[j..]);
  }

  /** An excerpt of a text of `bytes` bytes that keeps within `maxBytes` and its own count. */
  ghost predicate Fits(bytes: nat, maxBytes: nat, r: Excerpt) {
    |r.text| <= maxBytes && r.retained + r.omitted == bytes && (r.omitted == 0 <==> bytes <= maxBytes)
  }

  /** The text that fits is kept as it is, any other leaves something out; either way the budget holds and nothing is lost count of. */
  lemma ExcerptWithinBudget(value: seq<CodePoint>, maxBytes: nat, r: Excerpt)
    requires IsExcerpt(value, maxBytes, r)
    ensures Fits(|Encode(value)|, maxBytes, r)
    ensures r.omitted == 0 ==> r.text == Encode(value)
  {
    if |Encode(value)| > maxBytes {
      var i, j :| IsCut(value, maxBytes, r, i, j);
      CutWithinBudget(value, maxBytes, r, i, j);
    }
  }

  /** The bytes of an ASCII text. */
  function AsciiBytes(s: string): seq<Byte>
    requires forall i :: 0 <= i < |s| ==> s[i] < 128 as char
  {
    seq(|s|, i requires 0 <= i < |s| => s[i] as int)
  }

  lemma {:induction false} AsciiEncoded(points: seq<CodePoint>, bytes: seq<Byte>)
    requires |points| == |bytes| && forall i :: 0 <= i < |points| ==> points[i] == [bytes[i]]
    ensures Encode(points) == bytes
  {
    if points != [] {
      AsciiEncoded(points[..|points| - 1], bytes[..|bytes| - 1]);
      assert bytes == bytes[..|bytes| - 1] + [bytes[|bytes| - 1]];
    }
  }

  lemma AsciiShown(s: string)
    requires forall i :: 0 <= i < |s| ==> s[i] < 128 as char
    ensures Encode(Ascii(s)) == AsciiBytes(s)
  {
    AsciiEncoded(Ascii(s), AsciiBytes(s));
  }

  /** The marker says how many bytes are omitted, in words. */
  lemma MarkerShown(n: nat)
    ensures forall i :: 0 <= i < |Numeral(n)| ==> Numeral(n)[i] < 128 as char
    ensures Encode(OmissionMarker(n)) == AsciiBytes("\n... [") + AsciiBytes(Numeral(n)) + AsciiBytes(" UTF-8 bytes omitted] ...\n")
  {
    NumeralDigits(n);
    AsciiShown("\n... [");
    AsciiShown(Numeral(n));
    AsciiShown(" UTF-8 bytes omitted] ...\n");
    EncodeConcat(Ascii("\n... ["), Ascii(Numeral(n)));
    EncodeConcat(Ascii("\n... [") + Ascii(Numeral(n)), Ascii(" UTF-8 bytes omitted] ...\n"));
  }

  /** The bytes that remain for the text next to a marker for all of it. */
  function Spare(bytes: nat, maxBytes: nat): int {
    var spare := maxBytes - (|Numeral(bytes)| + 32);
    if spare > 0 then spare else 0
  }

  /**
   The excerpt of a text that does not fit, in bytes: its first `head` and its last `tail` bytes, with the
   marker for the number of bytes between them; or nothing, where not even the marker fits. Head and tail
   get half of the bytes that remain next to the marker, up to three less.
   */
  lemma ExcerptShown(value: seq<CodePoint>, maxBytes: nat, r: Excerpt) returns (head: nat, tail: nat)
    requires IsExcerpt(value, maxBytes, r) && |Encode(value)| > maxBytes
    ensures var buffer, spare := Encode(value), Spare(|Encode(value)|, maxBytes);
      && head + tail <= |buffer| && r.retained == head + tail && r.omitted == |buffer| - head - tail
      && spare / 2 - 3 <= head <= spare / 2 && spare - spare / 2 - 3 <= tail <= spare - spare / 2
      && r.text == (if |Numeral(r.omitted)| + 32 > maxBytes then []
                    else buffer[..head] + Encode(OmissionMarker(r.omitted)) + buffer[|buffer| - tail..])
  {
    var i: nat, j: nat :| IsCut(value, maxBytes, r, i, j);
    AlignmentLoss(value, Available(|Encode(value)|, maxBytes), i, j);
    CutText(value, maxBytes, r, i, j);
    head, tail := Offset(value, i), |Encode(value)| - Offset(value, j);
  }

  lemma CutText(value: seq<CodePoint>, maxBytes: nat, r: Excerpt, i: nat, j: nat)
    requires i <= j <= |value| && IsCut(value, maxBytes, r, i, j)
    ensures Offset(value, j) <= |Encode(value)|
    ensures r.text == if |Numeral(r.omitted)| + 32 > maxBytes then []
      else Encode(value)[..Offset(value, i)] + Encode(OmissionMarker(r.omitted)) + Encode(value)[Offset(value, j)..]
  {
    SplitAt(value, i);
    SplitAt(value, j);
    EncodeConcat(value[..i], OmissionMarker(r.omitted));
    EncodeConcat(value[..i] + OmissionMarker(r.omitted), value[j..]);
  }

  /** Where to cut is determined, and so is the whole excerpt. */
  lemma ExcerptUnique(value: seq<CodePoint>, maxBytes: nat, r: Excerpt, q: Excerpt)
    requires IsExcerpt(value, maxBytes, r) && IsExcerpt(value, maxBytes, q)
    ensures r == q
  {
    if |Encode(value)| > maxBytes {
      var i, j :| IsCut(value, maxBytes, r, i, j);
      var k, l :| IsCut(value, maxBytes, q, k, l);
      SameCuts(value, Available(|Encode(value)|, maxBytes), i, j, k, l);
    }
  }

  lemma SameCuts(value: seq<CodePoint>, available: nat, i: nat, j: nat, k: nat, l: nat)
    requires Cuts(value, available, i, j) && Cuts(value, available, k, l)
    ensures i == k && j == l
  {
    if i < k {
      NotAfter(value, i + 1, k);
    } else if k < i {
      NotAfter(value, k + 1, i);
    }
    if j < l {
      NotAfter(value, j, l - 1);
    } else if l < j {
      NotAfter(value, l, j - 1);
    }
  }

  lemma NotAfter(value: seq<CodePoint>, i: nat, j: nat)
    requires i <= j <= |value|
    ensures Offset(value, i) <= Offset(value, j)
  {
    if i < j {
      OffsetsRise(value, i, j);
    }
  }

  /** What the first stream may take; the second gets the rest. */
  function StdoutShare(stdoutBytes: nat, stderrBytes: nat): (share: nat)
    ensures share <= BUDGET
    ensures stdoutBytes <= share && stderrBytes <= BUDGET - share <==> stdoutBytes + stderrBytes <= BUDGET
    ensures stdoutBytes <= BUDGET / 2 ==> stdoutBytes <= share
    ensures stderrBytes <= BUDGET / 2 ==> stderrBytes <= BUDGET - share
  {
    if stdoutBytes <= BUDGET / 2 then stdoutBytes
    else if stderrBytes <= BUDGET / 2 then BUDGET - stderrBytes
    else BUDGET / 2
  }

  function StderrShare(stdoutBytes: nat, stderrBytes: nat): nat {
    BUDGET - StdoutShare(stdoutBytes, stderrBytes)
  }

  /** A stream of at most half the budget may take just what it has, the other one the rest; two longer ones half each. */
  lemma SharesExactly(m: nat, n: nat)
    ensures StdoutShare(m, n) + StderrShare(m, n) == 12_288
    ensures m <= 6_144 ==> StdoutShare(m, n) == m
    ensures m > 6_144 && n <= 6_144 ==> StderrShare(m, n) == n
    ensures m > 6_144 && n > 6_144 ==> StdoutShare(m, n) == 6_144
  {
  }

  /** The excerpts of two streams that share the budget. */
  ghost predicate Shared(stdout: seq<CodePoint>, stderr: seq<CodePoint>, out: Excerpt, err: Excerpt) {
    && IsExcerpt(stdout, StdoutShare(|Encode(stdout)|, |Encode(stderr)|), out)
    && IsExcerpt(stderr, StderrShare(|Encode(stdout)|, |Encode(stderr)|), err)
  }

  lemma SharesAddUp(m: nat, n: nat, out: Excerpt, err: Excerpt)
    requires Fits(m, StdoutShare(m, n), out) && Fits(n, StderrShare(m, n), err)
    ensures |out.text| + |err.text| <= BUDGET
    ensures out.retained + out.omitted == m && err.retained + err.omitted == n
    ensures out.omitted == 0 && err.omitted == 0 <==> m + n <= BUDGET
    ensures m <= BUDGET / 2 ==> out.omitted == 0
    ensures n <= BUDGET / 2 ==> err.omitted == 0
  {
  }

  lemma StdoutFits(stdout: seq<CodePoint>, stderr: seq<CodePoint>, out: Excerpt, err: Excerpt)
    requires Shared(stdout, stderr, out, err)
    ensures Fits(|Encode(stdout)|, StdoutShare(|Encode(stdout)|, |Encode(stderr)|), out)
    ensures out.omitted == 0 ==> out.text == Encode(stdout)
  {
    ExcerptWithinBudget(stdout, StdoutShare(|Encode(stdout)|, |Encode(stderr)|), out);
  }

  lemma StderrFits(stdout: seq<CodePoint>, stderr: seq<CodePoint>, out: Excerpt, err: Excerpt)
    requires Shared(stdout, stderr, out, err)
    ensures Fits(|Encode(stderr)|, StderrShare(|Encode(stdout)|, |Encode(stderr)|), err)
    ensures err.omitted == 0 ==> err.text == Encode(stderr)
  {
    ExcerptWithinBudget(stderr, StderrShare(|Encode(stdout)|, |Encode(stderr)|), err);
  }

  /**
   Together the streams stay within the budget, and they are both kept whole exactly if they fit;
   a stream of at most half the budget is kept whole whatever the other is.
   */
  lemma SharedFairly(stdout: seq<CodePoint>, stderr: seq<CodePoint>, out: Excerpt, err: Excerpt)
    requires Shared(stdout, stderr, out, err)
    ensures |out.text| + |err.text| <= BUDGET
    ensures out.retained + out.omitted == |Encode(stdout)| && err.retained + err.omitted == |Encode(stderr)|
    ensures out.omitted == 0 && err.omitted == 0 <==> |Encode(stdout)| + |Encode(stderr)| <= BUDGET
    ensures |Encode(stdout)| <= BUDGET / 2 ==> out.omitted == 0
    ensures |Encode(stderr)| <= BUDGET / 2 ==> err.omitted == 0
    ensures out.omitted == 0 ==> out.text == Encode(stdout)
    ensures err.omitted == 0 ==> err.text == Encode(stderr)
  {
    var m, n := |Encode(stdout)|, |Encode(stderr)|;
    StdoutFits(stdout, stderr, out, err);
    StderrFits(stdout, stderr, out, err);
    SharesAddUp(m, n, out, err);
  }

  /** Two streams share the budget; what a short one leaves goes to the other. */
  method ProjectShellStreams(stdout: seq<CodePoint>, stderr: seq<CodePoint>) returns (out: Excerpt, err: Excerpt)
    ensures Shared(stdout, stderr, out, err)
  {
    var stdoutBytes, stderrBytes := |Encode(stdout)|, |Encode(stderr)|;
    var half := BUDGET / 2;
    var stdoutBudget := half;
    if stdoutBytes <= half {
      stdoutBudget := stdoutBytes;
    } else if stderrBytes <= half {
      stdoutBudget := BUDGET - stderrBytes;
    }
    assert stdoutBudget == StdoutShare(stdoutBytes, stderrBytes) && BUDGET - stdoutBudget == StderrShare(stdoutBytes, stderrBytes);
    out := ShellOutputExcerpt(stdout, stdoutBudget);
    err := ShellOutputExcerpt(stderr, BUDGET - stdoutBudget);
  }
}
