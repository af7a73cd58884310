/**
 * UTF-8-safe truncation for mesh transports.  Text is a sequence of Unicode
 * scalar values; the encoding is the one of section 3 of RFC 3629.
 */
module Utf8Mtu {

  type Byte = b: int | 0 <= b < 256
  type Scalar = c: int | 0 <= c < 0xD800 || 0xE000 <= c < 0x110000
  type Text = seq<Scalar>
  type Bytes = seq<Byte>

  function EncodeChar(c: Scalar): (r: Bytes)
    ensures 1 <= |r| <= 4
  {
    if c < 0x80 then [c]
    else if c < 0x800 then [0xC0 + c / 64, 0x80 + c % 64]
    else if c < 0x10000 then [0xE0 + c / 4096, 0x80 + c / 64 % 64, 0x80 + c % 64]
    else [0xF0 + c / 262144, 0x80 + c / 4096 % 64, 0x80 + c / 64 % 64, 0x80 + c % 64]
  }

  /** `text.encode("utf-8")`. */
  function Encode(s: Text): Bytes {
    if s == [] then [] else EncodeChar(s[0]) + Encode(s[1..])
  }

  predicate Continuation(b: Byte) {
    0x80 <= b < 0xC0
  }

  function Join2(a: int, b: int): int {
    (a - 0xC0) * 64 + (b - 0x80)
  }

  function Join3(a: int, b: int, c: int): int {
    (a - 0xE0) * 4096 + (b - 0x80) * 64 + (c - 0x80)
  }

  function Join4(a: int, b: int, c: int, d: int): int {
    (a - 0xF0) * 262144 + (b - 0x80) * 4096 + (c - 0x80) * 64 + (d - 0x80)
  }

  /** Splitting a code point into six-bit groups and joining them again. */
  lemma JoinSplit(c: int)
    requires 0 <= c
    ensures Join2(0xC0 + c / 64, 0x80 + c % 64) == c
    ensures Join3(0xE0 + c / 4096, 0x80 + c / 64 % 64, 0x80 + c % 64) == c
    ensures Join4(0xF0 + c / 262144, 0x80 + c / 4096 % 64, 0x80 + c / 64 % 64, 0x80 + c % 64) == c
  {
    assert c == c / 64 * 64 + c % 64;
    assert c / 64 == c / 4096 * 64 + c / 64 % 64;
    assert c / 4096 == c / 262144 * 64 + c / 4096 % 64;
  }

  /** The encoding in terms of its bytes: the shortest form, its lead byte, and continuation bytes with the value. */
  lemma EncodeCharExact(c: Scalar)
    ensures var e := EncodeChar(c);
      && |e| == (if c < 0x80 then 1 else if c < 0x800 then 2 else if c < 0x10000 then 3 else 4)
      && (forall i :: 1 <= i < |e| ==> 0x80 <= e[i] <= 0xBF)
      && (|e| == 1 ==> e[0] as int == c as int)
      && (|e| == 2 ==> 0xC2 <= e[0] <= 0xDF && Group(e, 0, 0xC0) * 64 + Group(e, 1, 0x80) == c as int)
      && (|e| == 3 ==> 0xE0 <= e[0] <= 0xEF
                       && Group(e, 0, 0xE0) * 4096 + Group(e, 1, 0x80) * 64 + Group(e, 2, 0x80) == c as int)
      && (|e| == 4 ==> 0xF0 <= e[0] <= 0xF4
                       && Group(e, 0, 0xF0) * 262144 + Group(e, 1, 0x80) * 4096 + Group(e, 2, 0x80) * 64
                          + Group(e, 3, 0x80) == c as int)
  {
    JoinSplit(c);
  }

  /** A byte without its marker bits. */
  function Group(e: Bytes, i: nat, marker: int): int
    requires i < |e|
  {
    e[i] - marker
  }

  datatype Decoded = Invalid | Char(c: Scalar, size: nat)

  /** The well-formed character at the front, if there is one: no overlong form, no surrogate. */
  function DecodeChar(bs: Bytes): (r: Decoded)
    ensures r.Char? ==> 1 <= r.size <= |bs|
  {
    if bs == [] then Invalid
    else if bs[0] < 0x80 then Char(bs[0], 1)
    else if 0xC2 <= bs[0] < 0xE0 && |bs| >= 2 && Continuation(bs[1]) then
      Char(Join2(bs[0], bs[1]), 2)
    else if 0xE0 <= bs[0] < 0xF0 && |bs| >= 3 && Continuation(bs[1]) && Continuation(bs[2]) then
      var c := Join3(bs[0], bs[1], bs[2]);
      if 0x800 <= c && !(0xD800 <= c < 0xE000) then Char(c, 3) else Invalid
    else if 0xF0 <= bs[0] < 0xF8 && |bs| >= 4
      && Continuation(bs[1]) && Continuation(bs[2]) && Continuation(bs[3]) then
      var c := Join4(bs[0], bs[1], bs[2], bs[3]);
      if 0x10000 <= c < 0x110000 then Char(c, 4) else Invalid
    else Invalid
  }

  /** `decode("utf-8", errors="ignore")`: bytes that start no character are dropped. */
  function DecodeIgnore(bs: Bytes): Text
    decreases |bs|
  {
    if bs == [] then []
    else match DecodeChar(bs)
      case Invalid => DecodeIgnore(bs[1..])
      case Char(c, n) => [c] + DecodeIgnore(bs[n..])
  }

  lemma DecodeEncodedChar(c: Scalar, rest: Bytes)
    ensures DecodeChar(EncodeChar(c) + rest) == Char(c, |EncodeChar(c)|)
  {
    var e := EncodeChar(c);
    var bs := e + rest;
    assert forall i :: 0 <= i < |e| ==> bs[i] == e[i];
    JoinSplit(c);
    hide Join2, Join3, Join4;
    assert |e| > 1 ==> forall i :: 1 <= i < |e| ==> Continuation(e[i]);
    if c < 0x800 {
    } else if c < 0x10000 {
      assert 0xE0 <= e[0] < 0xF0;
    } else {
      assert 0xF0 <= e[0] < 0xF8;
    }
  }

  /** Encoding then decoding gives the text back. */
  lemma {:induction false} RoundTrip(s: Text)
    ensures DecodeIgnore(Encode(s)) == s
  {
    hide EncodeChar, DecodeChar;
    if s != [] {
      DecodeEncodedChar(s[0], Encode(s[1..]));
      assert Encode(s)[|EncodeChar(s[0])|..] == Encode(s[1..]);
      RoundTrip(s[1..]);
      assert s == [s[0]] + s[1..];
    }
  }

  lemma {:induction false} ContinuationsVanish(bs: Bytes)
    requires forall i :: 0 <= i < |bs| ==> Continuation(bs[i])
    ensures DecodeIgnore(bs) == []
  {
    if bs != [] {
      ContinuationsVanish(bs[1..]);
    }
  }

  /** A cut inside a character leaves nothing of it. */
  lemma CutCharVanishes(c: Scalar, k: nat)
    requires k < |EncodeChar(c)|
    ensures DecodeIgnore(EncodeChar(c)[..k]) == []
  {
    if k > 0 {
      var bs := EncodeChar(c)[..k];
      assert bs[0] == EncodeChar(c)[0] >= 0xC0;
      assert DecodeChar(bs) == Invalid;
      assert forall i :: 0 <= i < |bs[1..]| ==> Continuation(bs[1..][i]);
      ContinuationsVanish(bs[1..]);
    }
  }

  /** How many leading characters fit in `k` bytes. */
  function Fit(s: Text, k: nat): (n: nat)
    ensures n <= |s|
  {
    if s == [] || |EncodeChar(s[0])| > k then 0 else 1 + Fit(s[1..], k - |EncodeChar(s[0])|)
  }

  /** That prefix fits, and no longer prefix does. */
  lemma {:induction false} FitIsLongest(s: Text, k: nat, n: nat)
    requires n <= |s|
    ensures |Encode(s[..Fit(s, k)])| <= k
    ensures |Encode(s[..n])| <= k <==> n <= Fit(s, k)
  {
    if s != [] {
      var m, f := |EncodeChar(s[0])|, Fit(s, k);
      if n > 0 {
        assert s[..n][0] == s[0] && s[..n][1..] == s[1..][..n - 1];
      }
      if m <= k {
        FitIsLongest(s[1..], k - m, if n > 0 then n - 1 else 0);
        assert s[..f][0] == s[0] && s[..f][1..] == s[1..][..f - 1];
      }
    }
  }

  /** Cutting the encoding at any byte and decoding keeps exactly the characters that fit. */
  lemma {:induction false} CutKeepsFit(s: Text, k: nat)
    requires k <= |Encode(s)|
    ensures DecodeIgnore(Encode(s)[..k]) == s[..Fit(s, k)]
  {
    if s != [] {
      var e, rest := EncodeChar(s[0]), Encode(s[1..]);
      if k < |e| {
        assert Encode(s)[..k] == e[..k];
        CutCharVanishes(s[0], k);
      } else {
        var cut := rest[..k - |e|];
        assert Encode(s)[..k] == e + cut;
        DecodeEncodedChar(s[0], cut);
        assert (e + cut)[|e|..] == cut;
        CutKeepsFit(s[1..], k - |e|);
        assert s[..Fit(s, k)] == [s[0]] + s[1..][..Fit(s, k) - 1];
      }
    }
  }

  /** Python's `bs[:m]`: a negative bound counts from the end. */
  function Slice(bs: Bytes, m: int): Bytes {
    if m < 0 then (if |bs| + m <= 0 then [] else bs[..|bs| + m])
    else if m >= |bs| then bs else bs[..m]
  }

  function TruncateBytes(text: Text, maxBytes: int): Text {
    if |Encode(text)| <= maxBytes then text else DecodeIgnore(Slice(Encode(text), maxBytes))
  }

  /**
   * For a non-negative limit the result is the longest character prefix that
   * fits; a negative limit is taken from the end, and its result never fits.
   */
  lemma TruncateBytesExact(text: Text, maxBytes: int)
    ensures maxBytes >= 0 ==> TruncateBytes(text, maxBytes) == text[..Fit(text, maxBytes)]
    ensures |Encode(TruncateBytes(text, maxBytes))| <= maxBytes <==> maxBytes >= 0
    ensures maxBytes < 0 && |Encode(text)| + maxBytes >= 0 ==>
      TruncateBytes(text, maxBytes) == text[..Fit(text, |Encode(text)| + maxBytes)]
  {
    if maxBytes >= 0 {
      FitIsLongest(text, maxBytes, |text|);
      assert text[..|text|] == text;
      if |Encode(text)| > maxBytes {
        CutKeepsFit(text, maxBytes);
      }
    } else if |Encode(text)| + maxBytes >= 0 {
      var k := |Encode(text)| + maxBytes;
      CutKeepsFit(text, k);
      assert k == 0 ==> Encode(text)[..k] == [];
    }
  }

  const ELLIPSIS: Text := [0x20, 0x2E, 0x2E, 0x2E]

  function TruncateForMtu(header: Text, body: Text, mtu: int): Text {
    if mtu <= 0 then []
    else
      var headerBytes := |Encode(header)|;
      if headerBytes >= mtu then TruncateBytes(header, mtu)
      else
        var room := mtu - headerBytes;
        if |Encode(body)| <= room then header + body
        else if room <= |Encode(ELLIPSIS)| then header + TruncateBytes(body, room)
        else header + DecodeIgnore(Slice(Encode(body), room - |Encode(ELLIPSIS)|)) + ELLIPSIS
  }

  lemma {:induction false} EncodeConcat(a: Text, b: Text)
    ensures Encode(a + b) == Encode(a) + Encode(b)
  {
    if a == [] {
      assert a + b == b;
    } else {
      assert (a + b)[0] == a[0] && (a + b)[1..] == a[1..] + b;
      EncodeConcat(a[1..], b);
    }
  }

  lemma EllipsisSize()
    ensures |Encode(ELLIPSIS)| == 4
  {
    assert ELLIPSIS[1..] == [0x2E, 0x2E, 0x2E] && ELLIPSIS[1..][1..] == [0x2E, 0x2E];
    assert ELLIPSIS[1..][1..][1..] == [0x2E] && ELLIPSIS[1..][1..][1..][1..] == [];
    assert Encode(ELLIPSIS[1..][1..]) == [0x2E] + Encode([0x2E]);
    assert Encode(ELLIPSIS[1..]) == [0x2E] + Encode(ELLIPSIS[1..][1..]);
  }

  lemma EncodeEmpty(s: Text)
    requires |Encode(s)| <= 0
    ensures s == []
  {
  }

  lemma SliceFront(bs: Bytes, k: nat)
    requires k <= |bs|
    ensures Slice(bs, k) == bs[..k]
  {
  }

  /** The longest prefix of `text` whose encoding fits, as a relation rather than a computation. */
  ghost predicate LongestFitting(text: Text, limit: nat, prefix: Text) {
    && prefix <= text && |Encode(prefix)| <= limit
    && forall n :: 0 <= n <= |text| && |Encode(text[..n])| <= limit ==> n <= |prefix|
  }

  lemma FitLongestFitting(text: Text, limit: nat)
    ensures LongestFitting(text, limit, text[..Fit(text, limit)])
  {
    forall n | 0 <= n <= |text| && |Encode(text[..n])| <= limit ensures n <= Fit(text, limit) {
      FitIsLongest(text, limit, n);
    }
    FitIsLongest(text, limit, 0);
  }

  /** The header alone fills the budget: the result is its longest fitting prefix. */
  lemma MtuHeaderOnly(header: Text, body: Text, mtu: int)
    requires 0 < mtu <= |Encode(header)|
    ensures var r := TruncateForMtu(header, body, mtu);
      LongestFitting(header, mtu, r) && (|Encode(header + body)| <= mtu ==> r == header + body)
  {
    EncodeConcat(header, body);
    TruncateBytesExact(header, mtu);
    FitLongestFitting(header, mtu);
    if |Encode(header + body)| <= mtu {
      EncodeEmpty(body);
      assert header + body == header;
      FitIsLongest(header, mtu, |header|);
      assert header[..|header|] == header;
    }
  }

  /** Header and body fit together: nothing changes. */
  lemma MtuFits(header: Text, body: Text, mtu: int)
    requires |Encode(header)| < mtu && |Encode(header + body)| <= mtu
    ensures TruncateForMtu(header, body, mtu) == header + body
  {
    EncodeConcat(header, body);
  }

  /** The rest has no room for the ellipsis: header and the longest fitting body prefix. */
  lemma MtuNoEllipsis(header: Text, body: Text, mtu: int)
    requires |Encode(header)| < mtu <= |Encode(header)| + 4 && |Encode(header + body)| > mtu
    ensures var r := TruncateForMtu(header, body, mtu);
      header <= r && LongestFitting(body, mtu - |Encode(header)|, r[|header|..]) && |Encode(r)| <= mtu
  {
    EncodeConcat(header, body);
    EllipsisSize();
    var room := mtu - |Encode(header)|;
    var p := TruncateBytes(body, room);
    TruncateBytesExact(body, room);
    FitLongestFitting(body, room);
    EncodeConcat(header, p);
    assert (header + p)[|header|..] == p;
  }

  /** Otherwise the ellipsis marks the cut after the longest body prefix that leaves room for it. */
  lemma MtuEllipsis(header: Text, body: Text, mtu: int)
    requires |Encode(header)| + 4 < mtu < |Encode(header + body)|
    ensures var p := body[..Fit(body, mtu - |Encode(header)| - 4)];
      && TruncateForMtu(header, body, mtu) == header + p + [0x20, 0x2E, 0x2E, 0x2E]
      && LongestFitting(body, mtu - |Encode(header)| - 4, p)
      && |Encode(header + p + ELLIPSIS)| <= mtu
  {
    EncodeConcat(header, body);
    EllipsisSize();
    var k := mtu - |Encode(header)| - 4;
    var p := body[..Fit(body, k)];
    CutKeepsFit(body, k);
    SliceFront(Encode(body), k);
    FitLongestFitting(body, k);
    EncodeConcat(header + p, ELLIPSIS);
    EncodeConcat(header, p);
  }

  /** For every header, body and mtu, the payload fits the budget, and text that fits is unchanged. */
  lemma TruncateForMtuFits(header: Text, body: Text, mtu: int)
    ensures |Encode(TruncateForMtu(header, body, mtu))| <= (if mtu > 0 then mtu else 0)
    ensures mtu > 0 && |Encode(header + body)| <= mtu ==> TruncateForMtu(header, body, mtu) == header + body
  {
    if mtu > 0 {
      hide TruncateForMtu, Encode;
      if |Encode(header)| >= mtu {
        MtuHeaderOnly(header, body, mtu);
      } else if |Encode(header + body)| <= mtu {
        MtuFits(header, body, mtu);
      } else if mtu <= |Encode(header)| + 4 {
        MtuNoEllipsis(header, body, mtu);
      } else {
        MtuEllipsis(header, body, mtu);
      }
    }
  }
}
