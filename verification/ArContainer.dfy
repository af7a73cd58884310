/**
 * The ar container of the recovery package (the FORMAT section of deb(5)): the
 * writer of `build_admin_deb.py` and the reader of `prepare_release_assets.py`.
 */
module ArContainer {
  import opened Prelude

  type Byte = b: int | 0 <= b < 256
  type Bytes = seq<Byte>

  datatype Result<T> = Ok(value: T) | Error(reason: Reason)
  datatype Reason =
    | TooLarge | BadSignature | TruncatedHeader | MalformedHeader | NonCanonicalMetadata
    | RepeatedMember | TruncatedMember | InvalidPadding | UnexpectedStructure | Unrepresentable

  const MAX_BYTES := 2 * 1024 * 1024 * 1024
  const SPACE: Byte := 0x20
  const SLASH: Byte := 0x2F
  const NEWLINE: Byte := 0x0A
  const END: Bytes := [0x60, 0x0A]

  function Ascii(s: string): Bytes
    requires forall i :: 0 <= i < |s| ==> s[i] as int < 128
  {
    seq(|s|, i requires 0 <= i < |s| => s[i] as int)
  }

  const MAGIC := Ascii("!<arch>\n")
  const BINARY := Ascii("debian-binary")
  const CONTROL := Ascii("control.tar.gz")
  const DATA := Ascii("data.tar.gz")
  const VERSION := Ascii("2.0\n")

  // ---------------------------------------------------------------- numbers

  function Digit(d: nat): Byte
    requires d < 10
  {
    0x30 + d
  }

  predicate IsDigit(b: Byte) {
    0x30 <= b < 0x3A
  }

  /** The decimal rendering of a size. */
  function Decimal(n: nat): (r: Bytes)
    ensures r != [] && forall i :: 0 <= i < |r| ==> IsDigit(r[i])
  {
    if n < 10 then [Digit(n)] else Decimal(n / 10) + [Digit(n % 10)]
  }

  /** The digits of Python's `int`: single underscores may separate them. */
  function ParseDigits(s: Bytes, acc: nat): Option<nat>
    decreases |s|
  {
    if s == [] || !IsDigit(s[0]) then None
    else
      var v := acc * 10 + (s[0] as int - 0x30);
      if |s| == 1 then Some(v)
      else if s[1] == 0x5F then ParseDigits(s[2..], v)
      else ParseDigits(s[1..], v)
  }

  /** `int(text)` for stripped ASCII text. */
  function ParseInt(s: Bytes): Option<int> {
    if s != [] && s[0] == 0x2D then
      match ParseDigits(s[1..], 0)
      case None => None
      case Some(v) => Some(0 - v as int)
    else if s != [] && s[0] == 0x2B then
      match ParseDigits(s[1..], 0)
      case None => None
      case Some(v) => Some(v)
    else match ParseDigits(s, 0)
      case None => None
      case Some(v) => Some(v)
  }

  lemma {:induction false} ParseSnoc(s: Bytes, d: Byte, acc: nat)
    requires s != [] && IsDigit(d) && forall i :: 0 <= i < |s| ==> IsDigit(s[i])
    ensures ParseDigits(s, acc).Some?
    ensures ParseDigits(s + [d], acc) == Some(ParseDigits(s, acc).value * 10 + (d as int - 0x30))
    decreases |s|
  {
    var v := acc * 10 + (s[0] as int - 0x30);
    if |s| == 1 {
      assert (s + [d])[1..] == [d];
    } else {
      assert (s + [d])[1..] == s[1..] + [d] && (s + [d])[1] == s[1];
      ParseSnoc(s[1..], d, v);
    }
  }

  lemma {:induction false} ParseDecimal(n: nat)
    ensures ParseInt(Decimal(n)) == Some(n)
    ensures ParseDigits(Decimal(n), 0) == Some(n)
  {
    if n >= 10 {
      ParseDecimal(n / 10);
      ParseSnoc(Decimal(n / 10), Digit(n % 10), 0);
    }
    assert IsDigit(Decimal(n)[0]);
  }

  /** A size has at most `w` digits exactly when it is below ten to the `w`. */
  function Pow10(w: nat): nat {
    if w == 0 then 1 else 10 * Pow10(w - 1)
  }

  lemma {:induction false} DecimalWidth(n: nat, w: nat)
    requires w > 0
    ensures |Decimal(n)| <= w <==> n < Pow10(w)
  {
    if w == 1 {
      assert Pow10(1) == 10;
    } else {
      if n >= 10 {
        DecimalWidth(n / 10, w - 1);
      } else {
        PowAtLeast(w);
      }
    }
  }

  lemma {:induction false} PowAtLeast(w: nat)
    requires w > 0
    ensures Pow10(w) >= 10
  {
    if w > 1 {
      PowAtLeast(w - 1);
    }
  }

  // ---------------------------------------------------------------- fields

  function Spaces(n: nat): (r: Bytes)
    ensures |r| == n && forall i :: 0 <= i < n ==> r[i] == SPACE
  {
    seq(n, i => SPACE)
  }

  /** `f"{s:<w}"`. */
  function Pad(s: Bytes, w: nat): (r: Bytes)
    ensures |r| == if |s| < w then w else |s|
  {
    if |s| < w then s + Spaces(w - |s|) else s
  }

  /** ASCII whitespace as `str.strip` sees it. */
  predicate IsSpace(b: Byte) {
    b == SPACE || 0x09 <= b <= 0x0D || 0x1C <= b <= 0x1F
  }

  lemma ByteClasses(b: Byte)
    ensures IsSpace(b) <==> b in {0x09, 0x0A, 0x0B, 0x0C, 0x0D, 0x1C, 0x1D, 0x1E, 0x1F, 0x20}
    ensures IsDigit(b) <==> b in {0x30, 0x31, 0x32, 0x33, 0x34, 0x35, 0x36, 0x37, 0x38, 0x39}
  {
  }

  function StripLeft(s: Bytes): Bytes {
    if s != [] && IsSpace(s[0]) then StripLeft(s[1..]) else s
  }

  function StripRight(s: Bytes): Bytes {
    if s != [] && IsSpace(s[|s| - 1]) then StripRight(s[..|s| - 1]) else s
  }

  function Strip(s: Bytes): Bytes {
    StripRight(StripLeft(s))
  }

  lemma {:induction false} StripSpaces(s: Bytes, n: nat)
    requires s != [] ==> !IsSpace(s[|s| - 1])
    ensures StripRight(s + Spaces(n)) == s
  {
    if n == 0 {
      assert s + Spaces(0) == s;
    } else {
      assert (s + Spaces(n))[..|s| + n - 1] == s + Spaces(n - 1);
      StripSpaces(s, n - 1);
    }
  }

  lemma StripPad(s: Bytes, w: nat)
    requires s != [] && !IsSpace(s[0]) && !IsSpace(s[|s| - 1])
    ensures Strip(Pad(s, w)) == s
  {
    if |s| < w {
      assert Pad(s, w)[0] == s[0];
      StripSpaces(s, w - |s|);
    }
  }

  predicate IsAscii(s: Bytes) {
    forall i :: 0 <= i < |s| ==> s[i] < 128
  }

  // ---------------------------------------------------------------- writing

  const ZERO := Ascii("0")
  const MODE := Ascii("100644")

  /** The 60 bytes before a member, or an error when a field is too wide. */
  function Header(name: Bytes, size: nat, epoch: nat): Result<Bytes> {
    var h := Pad(name + [SLASH], 16) + Pad(Decimal(epoch), 12) + Pad(ZERO, 6) + Pad(ZERO, 6)
             + Pad(MODE, 8) + Pad(Decimal(size), 10) + END;
    if |h| != 60 then Error(Unrepresentable) else Ok(h)
  }

  function Padding(size: nat): Bytes {
    if size % 2 == 1 then [NEWLINE] else []
  }

  function Member(name: Bytes, content: Bytes, epoch: nat): Result<Bytes> {
    match Header(name, |content|, epoch)
    case Error(e) => Error(e)
    case Ok(h) => Ok(h + content + Padding(|content|))
  }

  /** `_write_deb`. */
  function WriteDeb(control: Bytes, data: Bytes, epoch: nat): Result<Bytes> {
    match Member(BINARY, VERSION, epoch)
    case Error(e) => Error(e)
    case Ok(a) =>
      match Member(CONTROL, control, epoch)
      case Error(e) => Error(e)
      case Ok(b) =>
        match Member(DATA, data, epoch)
        case Error(e) => Error(e)
        case Ok(c) => Ok(MAGIC + a + b + c)
  }

  /** A header can be written exactly when every field fits its column. */
  lemma HeaderRepresentable(name: Bytes, size: nat, epoch: nat)
    ensures Header(name, size, epoch).Ok? <==> |name| < 16 && epoch < Pow10(12) && size < Pow10(10)
  {
    DecimalWidth(epoch, 12);
    DecimalWidth(size, 10);
  }

  // ---------------------------------------------------------------- reading

  /** One member read from the front: its name, its bytes and what follows. */
  datatype Front = Front(name: Bytes, content: Bytes, rest: Bytes)

  function ReadMember(rest: Bytes, seen: set<Bytes>): (r: Result<Front>)
    ensures r.Ok? ==> |r.value.rest| < |rest|
  {
    if |rest| < 60 then Error(TruncatedHeader)
    else
      var header := rest[..60];
      if header[58..] != END then Error(MalformedHeader)
      else if !IsAscii(header[..16]) || !IsAscii(header[48..58]) then Error(NonCanonicalMetadata)
      else
        var rawName := Strip(header[..16]);
        match ParseInt(Strip(header[48..58]))
        case None => Error(NonCanonicalMetadata)
        case Some(size) =>
          if rawName == [] || rawName[|rawName| - 1] != SLASH || size < 0 then Error(NonCanonicalMetadata)
          else if rawName[..|rawName| - 1] in seen then Error(RepeatedMember)
          else if 60 + size > |rest| then Error(TruncatedMember)
          else
            var content, after := rest[60..60 + size], rest[60 + size..];
            if size % 2 == 0 then Ok(Front(rawName[..|rawName| - 1], content, after))
            else if after == [] || after[0] != NEWLINE then Error(InvalidPadding)
            else Ok(Front(rawName[..|rawName| - 1], content, after[1..]))
  }

  /** The member loop. */
  function ReadMembers(rest: Bytes, members: map<Bytes, Bytes>): Result<map<Bytes, Bytes>>
    decreases |rest|
  {
    if rest == [] then Ok(members)
    else match ReadMember(rest, members.Keys)
      case Error(e) => Error(e)
      case Ok(f) => ReadMembers(f.rest, members[f.name := f.content])
  }

  function Checked(members: map<Bytes, Bytes>): Result<map<Bytes, Bytes>> {
    if members.Keys == {BINARY, CONTROL, DATA} && members[BINARY] == VERSION then Ok(members)
    else Error(UnexpectedStructure)
  }

  /** `_ar_members`. */
  function ReadDeb(raw: Bytes): Result<map<Bytes, Bytes>> {
    if |raw| > MAX_BYTES then Error(TooLarge)
    else if !(MAGIC <= raw) then Error(BadSignature)
    else match ReadMembers(raw[8..], map[])
      case Error(e) => Error(e)
      case Ok(members) => Checked(members)
  }

  /** A name the writer uses: printable at both ends and in ASCII. */
  predicate Plain(name: Bytes) {
    name != [] && IsAscii(name) && !IsSpace(name[0])
  }

  lemma AsciiPad(s: Bytes, w: nat)
    requires IsAscii(s)
    ensures IsAscii(Pad(s, w))
  {
  }

  lemma HeaderFields(name: Bytes, size: nat, epoch: nat)
    requires Header(name, size, epoch).Ok?
    ensures var h := Header(name, size, epoch).value;
      && |h| == 60 && h[..16] == Pad(name + [SLASH], 16) && h[48..58] == Pad(Decimal(size), 10) && h[58..] == END
  {
    HeaderRepresentable(name, size, epoch);
    DecimalWidth(epoch, 12);
    DecimalWidth(size, 10);
  }

  /** What the reader makes of a written header. */
  lemma HeaderReads(name: Bytes, size: nat, epoch: nat)
    requires Plain(name) && Header(name, size, epoch).Ok?
    ensures var h := Header(name, size, epoch).value;
      && |h| == 60 && h[58..] == END && IsAscii(h[..16]) && IsAscii(h[48..58])
      && Strip(h[..16]) == name + [SLASH] && ParseInt(Strip(h[48..58])) == Some(size)
  {
    HeaderFields(name, size, epoch);
    hide Header;
    var named, digits := name + [SLASH], Decimal(size);
    assert IsAscii(named);
    StripPad(named, 16);
    AsciiPad(named, 16);
    assert !IsSpace(digits[0]) && !IsSpace(digits[|digits| - 1]) && IsAscii(digits);
    StripPad(digits, 10);
    AsciiPad(digits, 10);
    ParseDecimal(size);
  }

  /** Reading undoes writing, one member at a time. */
  lemma ReadWritten(name: Bytes, content: Bytes, epoch: nat, after: Bytes, seen: set<Bytes>)
    requires Plain(name) && Member(name, content, epoch).Ok? && name !in seen
    ensures ReadMember(Member(name, content, epoch).value + after, seen) == Ok(Front(name, content, after))
  {
    hide Header, Strip, ParseInt, IsAscii, Plain, ReadMember, Padding;
    var h, pad := Header(name, |content|, epoch).value, Padding(|content|);
    var rest := Member(name, content, epoch).value + after;
    HeaderReads(name, |content|, epoch);
    assert rest == h + (content + (pad + after));
    ReadPieces(h, name, content, pad, after, seen);
  }

  lemma ReadPieces(h: Bytes, name: Bytes, content: Bytes, pad: Bytes, after: Bytes, seen: set<Bytes>)
    requires name !in seen
    requires |h| == 60 && h[58..] == END && IsAscii(h[..16]) && IsAscii(h[48..58])
    requires Strip(h[..16]) == name + [SLASH] && ParseInt(Strip(h[48..58])) == Some(|content|)
    requires pad == Padding(|content|)
    ensures ReadMember(h + (content + (pad + after)), seen) == Ok(Front(name, content, after))
  {
    hide Strip, ParseInt, IsAscii;
    var rest := h + (content + (pad + after));
    assert rest[..60] == h;
    assert rest[60..60 + |content|] == content;
    assert rest[60 + |content|..] == pad + after;
    assert pad != [] ==> (pad + after)[1..] == after;
    assert pad == [] ==> pad + after == after;
    assert (name + [SLASH])[..|name|] == name;
  }

  lemma NamesPlain()
    ensures Plain(BINARY) && Plain(CONTROL) && Plain(DATA)
    ensures BINARY != CONTROL && BINARY != DATA && CONTROL != DATA
    ensures |MAGIC| == 8 && |BINARY| == 13 && |CONTROL| == 14 && |DATA| == 11 && |VERSION| == 4
  {
    assert BINARY[0] == 'd' as int && CONTROL[0] == 'c' as int && DATA[0] == 'd' as int;
  }

  lemma MembersWritable(control: Bytes, data: Bytes, epoch: nat)
    requires epoch < Pow10(12) && |control| < Pow10(10) && |data| < Pow10(10)
    ensures Member(BINARY, VERSION, epoch).Ok? && Member(CONTROL, control, epoch).Ok?
    ensures Member(DATA, data, epoch).Ok?
  {
    NamesPlain();
    assert |VERSION| < Pow10(10) by {
      PowAtLeast(10);
    }
    hide Pow10, Header;
    HeaderRepresentable(BINARY, |VERSION|, epoch);
    HeaderRepresentable(CONTROL, |control|, epoch);
    HeaderRepresentable(DATA, |data|, epoch);
  }

  lemma ReadAfterMagic(body: Bytes)
    requires |MAGIC + body| <= MAX_BYTES
    ensures ReadDeb(MAGIC + body) ==
      match ReadMembers(body, map[]) case Error(e) => Error(e) case Ok(members) => Checked(members)
  {
    NamesPlain();
    hide ReadMembers, Checked, Ascii;
    assert (MAGIC + body)[8..] == body;
  }

  /**
   * The round trip: a written package within the size limit reads back as
   * exactly its three members, and writing succeeds whenever sizes and date fit.
   */
  lemma ArRoundTrip(control: Bytes, data: Bytes, epoch: nat)
    requires epoch < Pow10(12) && |control| < Pow10(10) && |data| < Pow10(10)
    ensures WriteDeb(control, data, epoch).Ok?
    ensures |WriteDeb(control, data, epoch).value| <= MAX_BYTES ==>
      ReadDeb(WriteDeb(control, data, epoch).value) == Ok(map[BINARY := VERSION, CONTROL := control, DATA := data])
  {
    hide Pow10, Header, Member, Plain, ReadMember, ReadMembers, ReadDeb, Ascii;
    MembersWritable(control, data, epoch);
    NamesPlain();
    var a, b := Member(BINARY, VERSION, epoch).value, Member(CONTROL, control, epoch).value;
    var c := Member(DATA, data, epoch).value;
    ReadWritten(BINARY, VERSION, epoch, b + c, {});
    ReadWritten(CONTROL, control, epoch, c, {BINARY});
    ReadWritten(DATA, data, epoch, [], {BINARY, CONTROL});
    assert c + [] == c;
    assert MAGIC + a + b + c == MAGIC + (a + (b + c));
    ReadThree(a, b, c, BINARY, CONTROL, DATA, VERSION, control, data);
    if |MAGIC + (a + (b + c))| <= MAX_BYTES {
      ReadAfterMagic(a + (b + c));
    }
  }

  lemma ReadThree(a: Bytes, b: Bytes, c: Bytes, n1: Bytes, n2: Bytes, n3: Bytes, x: Bytes, y: Bytes, z: Bytes)
    requires ReadMember(a + (b + c), {}) == Ok(Front(n1, x, b + c))
    requires ReadMember(b + c, {n1}) == Ok(Front(n2, y, c)) && ReadMember(c, {n1, n2}) == Ok(Front(n3, z, []))
    requires n1 != n2 && n1 != n3 && n2 != n3
    ensures ReadMembers(a + (b + c), map[]) == Ok(map[n1 := x, n2 := y, n3 := z])
  {
    MemberNonEmpty(a + (b + c), {});
    MemberNonEmpty(b + c, {n1});
    MemberNonEmpty(c, {n1, n2});
    hide ReadMember;
    var m1 := map[n1 := x];
    var m2 := m1[n2 := y];
    var m3 := m2[n3 := z];
    var none: map<Bytes, Bytes> := map[];
    assert none.Keys == {} && none[n1 := x] == m1;
    assert m1.Keys == {n1} && m2.Keys == {n1, n2};
    assert ReadMembers([], m3) == Ok(m3);
    assert ReadMembers(c, m2) == ReadMembers([], m3);
    assert ReadMembers(b + c, m1) == ReadMembers(c, m2);
    assert ReadMembers(a + (b + c), map[]) == ReadMembers(b + c, m1);
    assert m3 == map[n1 := x, n2 := y, n3 := z];
  }

  lemma MemberNonEmpty(rest: Bytes, seen: set<Bytes>)
    ensures ReadMember(rest, seen).Ok? ==> rest != []
  {
  }

  // ---------------------------------------------------------------- nothing left over

  /** A member as it lies in the file. */
  datatype Chunk = Chunk(header: Bytes, content: Bytes, padding: Bytes)

  ghost predicate WellFormed(k: Chunk) {
    && |k.header| == 60 && k.header[58..] == END
    && ParseInt(Strip(k.header[48..58])) == Some(|k.content|)
    && k.padding == (if |k.content| % 2 == 1 then [NEWLINE] else [])
    && Strip(k.header[..16]) != [] && Strip(k.header[..16])[|Strip(k.header[..16])| - 1] == SLASH
    && IsAscii(k.header[..16]) && IsAscii(k.header[48..58])
  }

  ghost function NameOf(k: Chunk): Bytes
    requires WellFormed(k)
  {
    var raw := Strip(k.header[..16]);
    raw[..|raw| - 1]
  }

  function Flatten(ks: seq<Chunk>): Bytes {
    if ks == [] then [] else ks[0].header + ks[0].content + ks[0].padding + Flatten(ks[1..])
  }

  /** The names and contents of the chunks, in order, added to what was there. */
  ghost function Contents(ks: seq<Chunk>, members: map<Bytes, Bytes>): map<Bytes, Bytes>
    requires forall i :: 0 <= i < |ks| ==> WellFormed(ks[i])
    decreases |ks|
  {
    if ks == [] then members
    else
      assert WellFormed(ks[0]);
      Contents(ks[1..], members[NameOf(ks[0]) := ks[0].content])
  }

  lemma FrontIsChunk(rest: Bytes, seen: set<Bytes>) returns (k: Chunk)
    requires ReadMember(rest, seen).Ok?
    ensures WellFormed(k) && NameOf(k) == ReadMember(rest, seen).value.name
    ensures k.content == ReadMember(rest, seen).value.content
    ensures rest == k.header + k.content + k.padding + ReadMember(rest, seen).value.rest
    ensures NameOf(k) !in seen
  {
    hide Strip, ParseInt, IsAscii, ReadMember;
    var f := ReadMember(rest, seen).value;
    FrontSplits(rest, seen);
    FrontHeader(rest, seen);
    k := Chunk(rest[..60], f.content, if |f.content| % 2 == 1 then [NEWLINE] else []);
    assert rest[..60][..16] == rest[..16] && rest[..60][48..58] == rest[48..58] && rest[..60][58..] == rest[58..60];
  }

  lemma FrontHeader(rest: Bytes, seen: set<Bytes>)
    requires ReadMember(rest, seen).Ok?
    ensures var f := ReadMember(rest, seen).value;
      && |rest| >= 60 && rest[58..60] == END && IsAscii(rest[..16]) && IsAscii(rest[48..58])
      && ParseInt(Strip(rest[48..58])) == Some(|f.content|)
      && Strip(rest[..16]) != [] && Strip(rest[..16])[|Strip(rest[..16])| - 1] == SLASH
      && f.name == Strip(rest[..16])[..|Strip(rest[..16])| - 1] && f.name !in seen
  {
    hide Strip, ParseInt, IsAscii;
    assert rest[..60][..16] == rest[..16] && rest[..60][48..58] == rest[48..58] && rest[..60][58..] == rest[58..60];
  }

  lemma FrontSplits(rest: Bytes, seen: set<Bytes>)
    requires ReadMember(rest, seen).Ok?
    ensures var f := ReadMember(rest, seen).value;
      |rest| >= 60 && rest == rest[..60] + f.content + (if |f.content| % 2 == 1 then [NEWLINE] else []) + f.rest
  {
    hide Strip, ParseInt, IsAscii;
    var f := ReadMember(rest, seen).value;
    var n := 60 + |f.content|;
    assert rest == rest[..60] + rest[60..n] + rest[n..];
    if |f.content| % 2 == 1 {
      assert rest[n..] == [NEWLINE] + rest[n..][1..];
    }
  }

  lemma {:induction false} Partition(rest: Bytes, members: map<Bytes, Bytes>) returns (ks: seq<Chunk>)
    requires ReadMembers(rest, members).Ok?
    ensures forall i :: 0 <= i < |ks| ==> WellFormed(ks[i])
    ensures rest == Flatten(ks)
    ensures ReadMembers(rest, members).value == Contents(ks, members)
    ensures |Contents(ks, members)| == |members| + |ks|
    decreases |rest|
  {
    if rest == [] {
      ks := [];
    } else {
      var f := ReadMember(rest, members.Keys).value;
      var k := FrontIsChunk(rest, members.Keys);
      hide ReadMember, WellFormed;
      var more := members[f.name := f.content];
      var tail := Partition(f.rest, more);
      ks := [k] + tail;
      assert ks[1..] == tail;
      assert more.Keys == members.Keys + {f.name};
      assert |more| == |members| + 1;
    }
  }

  /**
   * An accepted file is nothing but the magic followed by exactly three chunks
   * of header, content and odd-size padding, and the result is their contents.
   */
  lemma AcceptedIsPartitioned(raw: Bytes) returns (ks: seq<Chunk>)
    requires ReadDeb(raw).Ok?
    ensures |ks| == 3 && forall i :: 0 <= i < |ks| ==> WellFormed(ks[i])
    ensures raw == MAGIC + Flatten(ks)
    ensures ReadDeb(raw).value == Contents(ks, map[])
    ensures ReadDeb(raw).value.Keys == {BINARY, CONTROL, DATA} && ReadDeb(raw).value[BINARY] == VERSION
  {
    NamesPlain();
    hide ReadMembers, Ascii, WellFormed, Contents;
    var none: map<Bytes, Bytes> := map[];
    assert raw == MAGIC + raw[8..];
    ks := Partition(raw[8..], none);
    var m := Contents(ks, none);
    assert m.Keys == {BINARY, CONTROL, DATA};
    ThreeNames(m);
  }

  lemma ThreeNames(m: map<Bytes, Bytes>)
    requires m.Keys == {BINARY, CONTROL, DATA}
    ensures |m| == 3
  {
    NamesPlain();
    hide Ascii;
    assert |{BINARY, CONTROL, DATA}| == 3;
    assert |m| == |m.Keys|;
  }

  /** The three chunks of a package the reader takes, in any order. */
  ghost predicate Readable(ks: seq<Chunk>) {
    && |ks| == 3 && (forall i :: 0 <= i < |ks| ==> WellFormed(ks[i]))
    && {NameOf(ks[0]), NameOf(ks[1]), NameOf(ks[2])} == {BINARY, CONTROL, DATA}
    && (forall i :: 0 <= i < |ks| && NameOf(ks[i]) == BINARY ==> ks[i].content == VERSION)
  }

  ghost function ByName(ks: seq<Chunk>): map<Bytes, Bytes>
    requires |ks| == 3 && forall i :: 0 <= i < |ks| ==> WellFormed(ks[i])
  {
    map[NameOf(ks[0]) := ks[0].content, NameOf(ks[1]) := ks[1].content, NameOf(ks[2]) := ks[2].content]
  }

  /**
   * The reader takes exactly the files within the size limit that are the magic
   * and three well-formed chunks, one for each expected name, with the right version.
   */
  lemma ReadDebExact(raw: Bytes)
    ensures ReadDeb(raw).Ok? <==> |raw| <= MAX_BYTES && exists ks :: Readable(ks) && raw == MAGIC + Flatten(ks)
    ensures forall ks: seq<Chunk> :: |raw| <= MAX_BYTES && Readable(ks) && raw == MAGIC + Flatten(ks) ==>
      ReadDeb(raw) == Ok(ByName(ks))
  {
    if ReadDeb(raw).Ok? {
      var ks := AcceptedIsPartitioned(raw);
      PartitionReadable(ks);
    }
    hide Flatten, ReadDeb, Ascii, WellFormed;
    forall ks: seq<Chunk> | |raw| <= MAX_BYTES && Readable(ks) && raw == MAGIC + Flatten(ks)
      ensures ReadDeb(raw) == Ok(ByName(ks))
    {
      ReadableReads(ks);
    }
  }

  lemma ContentsThree(ks: seq<Chunk>)
    requires |ks| == 3 && forall i :: 0 <= i < |ks| ==> WellFormed(ks[i])
    ensures Contents(ks, map[]) == ByName(ks)
  {
    hide WellFormed;
    var none: map<Bytes, Bytes> := map[];
    var m1 := none[NameOf(ks[0]) := ks[0].content];
    var m2 := m1[NameOf(ks[1]) := ks[1].content];
    var m3 := m2[NameOf(ks[2]) := ks[2].content];
    assert ks[1..][0] == ks[1] && ks[1..][1..] == ks[2..] && ks[2..][0] == ks[2] && ks[2..][1..] == [];
    assert Contents([], m3) == m3;
    assert Contents(ks[2..], m2) == m3;
    assert Contents(ks[1..], m1) == Contents(ks[2..], m2);
  }

  lemma PartitionReadable(ks: seq<Chunk>)
    requires |ks| == 3 && forall i :: 0 <= i < |ks| ==> WellFormed(ks[i])
    requires Contents(ks, map[]).Keys == {BINARY, CONTROL, DATA} && Contents(ks, map[])[BINARY] == VERSION
    ensures Readable(ks)
  {
    hide WellFormed, Contents, Ascii, Plain, NameOf;
    ContentsThree(ks);
    ThreeEntries(NameOf(ks[0]), NameOf(ks[1]), NameOf(ks[2]), ks[0].content, ks[1].content, ks[2].content);
  }

  lemma ThreeEntries(a: Bytes, b: Bytes, c: Bytes, x: Bytes, y: Bytes, z: Bytes)
    requires var m := map[a := x, b := y, c := z]; m.Keys == {BINARY, CONTROL, DATA} && m[BINARY] == VERSION
    ensures {a, b, c} == {BINARY, CONTROL, DATA}
    ensures (a == BINARY ==> x == VERSION) && (b == BINARY ==> y == VERSION) && (c == BINARY ==> z == VERSION)
  {
    hide Ascii;
    var m := map[a := x, b := y, c := z];
    assert m.Keys == {a, b, c};
    NamesApart(a, b, c);
  }

  lemma NamesApart(a: Bytes, b: Bytes, c: Bytes)
    requires {a, b, c} == {BINARY, CONTROL, DATA}
    ensures a != b && a != c && b != c
  {
    NamesPlain();
    hide Ascii, Plain;
    var names := {a, b, c};
    assert BINARY in names && CONTROL in names && DATA in names;
  }

  lemma ChunkReads(k: Chunk, after: Bytes, seen: set<Bytes>)
    requires WellFormed(k) && NameOf(k) !in seen
    ensures ReadMember(k.header + k.content + k.padding + after, seen) == Ok(Front(NameOf(k), k.content, after))
  {
    hide Strip, ParseInt, IsAscii, ReadMember;
    assert k.header + k.content + k.padding + after == k.header + (k.content + (k.padding + after));
    assert NameOf(k) + [SLASH] == Strip(k.header[..16]);
    ReadPieces(k.header, NameOf(k), k.content, k.padding, after, seen);
  }

  lemma ReadableReads(ks: seq<Chunk>)
    requires Readable(ks) && |MAGIC + Flatten(ks)| <= MAX_BYTES
    ensures ReadDeb(MAGIC + Flatten(ks)) ==
      Ok(ByName(ks))
  {
    hide WellFormed, NameOf, ReadMember, ReadMembers, ReadDeb, Ascii;
    var n0, n1, n2 := NameOf(ks[0]), NameOf(ks[1]), NameOf(ks[2]);
    NamesApart(n0, n1, n2);
    var a := ks[0].header + ks[0].content + ks[0].padding;
    var b := ks[1].header + ks[1].content + ks[1].padding;
    var c := ks[2].header + ks[2].content + ks[2].padding;
    FlattenThree(ks, a, b, c);
    ChunkReads(ks[0], b + c, {});
    ChunkReads(ks[1], c, {n0});
    ChunkReads(ks[2], [], {n0, n1});
    assert c + [] == c;
    ReadThree(a, b, c, n0, n1, n2, ks[0].content, ks[1].content, ks[2].content);
    ReadAfterMagic(a + (b + c));
    VersionChecked(ks);
  }

  lemma FlattenThree(ks: seq<Chunk>, a: Bytes, b: Bytes, c: Bytes)
    requires |ks| == 3
    requires a == ks[0].header + ks[0].content + ks[0].padding && b == ks[1].header + ks[1].content + ks[1].padding
    requires c == ks[2].header + ks[2].content + ks[2].padding
    ensures Flatten(ks) == a + (b + c)
  {
    assert ks[1..][0] == ks[1] && ks[1..][1..] == ks[2..] && ks[2..][0] == ks[2] && ks[2..][1..] == [];
    assert Flatten([]) == [];
    assert Flatten(ks[2..]) == c + [] == c;
    assert Flatten(ks[1..]) == b + c;
  }

  lemma VersionChecked(ks: seq<Chunk>)
    requires Readable(ks)
    ensures var m := ByName(ks);
      Checked(m) == Ok(m)
  {
    hide WellFormed, NameOf, Ascii;
    NamesApart(NameOf(ks[0]), NameOf(ks[1]), NameOf(ks[2]));
    var m := ByName(ks);
    assert m.Keys == {NameOf(ks[0]), NameOf(ks[1]), NameOf(ks[2])};
    assert BINARY in m.Keys;
  }

  // ---------------------------------------------------------------- the layout of a written package

  /** Columns `from` to `to` hold the text, filled up with spaces. */
  ghost predicate Column(h: Bytes, from: nat, to: nat, text: Bytes) {
    && from + |text| <= to <= |h| && h[from..from + |text|] == text
    && forall i :: from + |text| <= i < to ==> h[i] == 0x20
  }

  /** The number a digit string stands for. */
  function Value(s: Bytes): int {
    if s == [] then 0 else Value(s[..|s| - 1]) * 10 + s[|s| - 1] as int - 0x30
  }

  /** The decimal rendering has the number's value, digits only, and no leading zero. */
  lemma {:induction false} DecimalExact(n: nat)
    ensures var s := Decimal(n);
      && Value(s) == n && (forall i :: 0 <= i < |s| ==> 0x30 <= s[i] <= 0x39)
      && s != [] && (s[0] == 0x30 ==> n == 0 && |s| == 1)
  {
    if n >= 10 {
      var front := Decimal(n / 10);
      DecimalExact(n / 10);
      assert Decimal(n)[..|Decimal(n)| - 1] == front;
      assert Decimal(n)[0] == front[0];
    } else {
      assert Decimal(n)[..0] == [];
    }
  }

  /** The chunk is the named member as the ar format lays it out: name, date, owner, group, mode and size. */
  ghost predicate Laid(k: Chunk, name: Bytes, content: Bytes, epoch: nat) {
    && |k.header| == 60
    && Column(k.header, 0, 16, name + [0x2F])
    && Column(k.header, 16, 28, Decimal(epoch))
    && Column(k.header, 28, 34, [0x30])
    && Column(k.header, 34, 40, [0x30])
    && Column(k.header, 40, 48, [0x31, 0x30, 0x30, 0x36, 0x34, 0x34])
    && Column(k.header, 48, 58, Decimal(|content|))
    && k.header[58..] == [0x60, 0x0A]
    && k.content == content
    && k.padding == if |content| % 2 == 1 then [0x0A] else []
  }

  /** The bytes of the text constants. */
  lemma Literals()
    ensures MAGIC == [0x21, 0x3C, 0x61, 0x72, 0x63, 0x68, 0x3E, 0x0A]
    ensures BINARY == [0x64, 0x65, 0x62, 0x69, 0x61, 0x6E, 0x2D, 0x62, 0x69, 0x6E, 0x61, 0x72, 0x79]
    ensures CONTROL == [0x63, 0x6F, 0x6E, 0x74, 0x72, 0x6F, 0x6C, 0x2E, 0x74, 0x61, 0x72, 0x2E, 0x67, 0x7A]
    ensures DATA == [0x64, 0x61, 0x74, 0x61, 0x2E, 0x74, 0x61, 0x72, 0x2E, 0x67, 0x7A]
    ensures VERSION == [0x32, 0x2E, 0x30, 0x0A]
    ensures ZERO == [0x30] && MODE == [0x31, 0x30, 0x30, 0x36, 0x34, 0x34]
  {
  }

  /** The package is the magic, then the version, the control archive and the data archive, in this order. */
  ghost predicate Packaged(raw: Bytes, control: Bytes, data: Bytes, epoch: nat) {
    exists ks :: PackagedAs(ks, control, data, epoch)
      && raw == [0x21, 0x3C, 0x61, 0x72, 0x63, 0x68, 0x3E, 0x0A] + Flatten(ks)
  }

  ghost predicate PackagedAs(ks: seq<Chunk>, control: Bytes, data: Bytes, epoch: nat) {
    && |ks| == 3 && Laid(ks[0], BINARY, [0x32, 0x2E, 0x30, 0x0A], epoch)
    && Laid(ks[1], CONTROL, control, epoch) && Laid(ks[2], DATA, data, epoch)
  }

  /** What is written, and when: each size and the date must fit its column. */
  lemma WriteDebExact(control: Bytes, data: Bytes, epoch: nat)
    ensures WriteDeb(control, data, epoch).Ok? <==>
            epoch < Pow10(12) && |control| < Pow10(10) && |data| < Pow10(10)
    ensures WriteDeb(control, data, epoch).Ok? ==> Packaged(WriteDeb(control, data, epoch).value, control, data, epoch)
  {
    hide Pow10, Header, Ascii, Laid, Plain;
    if epoch < Pow10(12) && |control| < Pow10(10) && |data| < Pow10(10) {
      MembersWritable(control, data, epoch);
    } else {
      HeaderRepresentable(BINARY, |VERSION|, epoch);
      HeaderRepresentable(CONTROL, |control|, epoch);
      HeaderRepresentable(DATA, |data|, epoch);
    }
    if WriteDeb(control, data, epoch).Ok? {
      NamesPlain();
      Literals();
      var a := MemberLaid(BINARY, VERSION, epoch);
      var b := MemberLaid(CONTROL, control, epoch);
      var c := MemberLaid(DATA, data, epoch);
      hide Member, Flatten;
      var ks := [a, b, c];
      PackageBytes(a, b, c);
      assert PackagedAs(ks, control, data, epoch);
    }
  }

  lemma PackageBytes(a: Chunk, b: Chunk, c: Chunk)
    ensures MAGIC + (a.header + a.content + a.padding) + (b.header + b.content + b.padding)
            + (c.header + c.content + c.padding) == MAGIC + Flatten([a, b, c])
  {
    hide Ascii, Flatten;
    FlattenThree([a, b, c], a.header + a.content + a.padding, b.header + b.content + b.padding,
                 c.header + c.content + c.padding);
  }

  lemma MemberLaid(name: Bytes, content: Bytes, epoch: nat) returns (k: Chunk)
    requires Member(name, content, epoch).Ok?
    ensures Laid(k, name, content, epoch)
    ensures Member(name, content, epoch).value == k.header + k.content + k.padding
  {
    k := Chunk(Header(name, |content|, epoch).value, content, Padding(|content|));
    HeaderLaid(name, |content|, epoch);
    hide Header, Column;
  }

  lemma HeaderLaid(name: Bytes, size: nat, epoch: nat)
    requires Header(name, size, epoch).Ok?
    ensures var h := Header(name, size, epoch).value;
      && |h| == 60
      && Column(h, 0, 16, name + [0x2F]) && Column(h, 16, 28, Decimal(epoch))
      && Column(h, 28, 34, [0x30]) && Column(h, 34, 40, [0x30])
      && Column(h, 40, 48, [0x31, 0x30, 0x30, 0x36, 0x34, 0x34])
      && Column(h, 48, 58, Decimal(size)) && h[58..] == [0x60, 0x0A]
  {
    hide Decimal, Pow10, Ascii, Column, Pad;
    HeaderRepresentable(name, size, epoch);
    DecimalWidth(epoch, 12);
    DecimalWidth(size, 10);
    Literals();
    var c1 := Pad(name + [SLASH], 16);
    var c2 := c1 + Pad(Decimal(epoch), 12);
    var c3 := c2 + Pad(ZERO, 6);
    var c4 := c3 + Pad(ZERO, 6);
    var c5 := c4 + Pad(MODE, 8);
    var c6 := c5 + Pad(Decimal(size), 10);
    Columns(c1, c2, c3, c4, c5, c6, END);
    var h := c6 + END;
    assert [] + c1 == c1;
    PadColumn([], name + [SLASH], 16, h);
    PadColumn(c1, Decimal(epoch), 12, h);
    PadColumn(c2, ZERO, 6, h);
    PadColumn(c3, ZERO, 6, h);
    PadColumn(c4, MODE, 8, h);
    PadColumn(c5, Decimal(size), 10, h);
  }

  lemma Columns(c1: Bytes, c2: Bytes, c3: Bytes, c4: Bytes, c5: Bytes, c6: Bytes, end: Bytes)
    requires c1 <= c2 <= c3 <= c4 <= c5 <= c6
    ensures c1 <= c6 + end && c2 <= c6 + end && c3 <= c6 + end
    ensures c4 <= c6 + end && c5 <= c6 + end && c6 <= c6 + end
  {
  }

  lemma PadColumn(before: Bytes, text: Bytes, w: nat, h: Bytes)
    requires |text| <= w && before + Pad(text, w) <= h
    ensures Column(h, |before|, |before| + w, text)
  {
    var n := |before|;
    var front := before + Pad(text, w);
    assert h[..|front|] == front;
    assert h[n..n + |text|] == front[n..n + |text|] == Pad(text, w)[..|text|] == text;
    forall i | n + |text| <= i < n + w ensures h[i] == 0x20 {
      assert h[i] == front[i] == Pad(text, w)[i - n];
    }
  }

  // ---------------------------------------------------------------- the loops

  /** `_ar_members`, with its running offset. */
  method ArMembers(raw: Bytes) returns (r: Result<map<Bytes, Bytes>>)
    ensures r == ReadDeb(raw)
    ensures r.Ok? <==> |raw| <= MAX_BYTES && exists ks :: Readable(ks) && raw == MAGIC + Flatten(ks)
  {
    ReadDebExact(raw);
    hide Readable;
    NamesPlain();
    if |raw| > MAX_BYTES {
      return Error(TooLarge);
    }
    if !(MAGIC <= raw) {
      return Error(BadSignature);
    }
    hide ReadMember, Ascii;
    var offset := 8;
    var members: map<Bytes, Bytes> := map[];
    while offset < |raw|
      invariant 8 <= offset <= |raw|
      invariant ReadMembers(raw[offset..], members) == ReadMembers(raw[8..], map[])
    {
      var front := ReadMember(raw[offset..], members.Keys);
      if front.Error? {
        return Error(front.reason);
      }
      RestIsSuffix(raw[offset..], members.Keys);
      members := members[front.value.name := front.value.content];
      offset := |raw| - |front.value.rest|;
      assert raw[offset..] == front.value.rest;
    }
    assert raw[offset..] == [];
    return Checked(members);
  }

  lemma RestIsSuffix(rest: Bytes, seen: set<Bytes>)
    requires ReadMember(rest, seen).Ok?
    ensures var after := ReadMember(rest, seen).value.rest;
      |after| <= |rest| && rest[|rest| - |after|..] == after
  {
    hide Strip, ParseInt, IsAscii;
    var f := ReadMember(rest, seen).value;
    var n := 60 + |f.content|;
    assert |f.content| % 2 == 1 ==> rest[n..][1..] == rest[n + 1..];
  }

  /** `_write_deb`: append the members one by one. */
  method WriteArchive(control: Bytes, data: Bytes, epoch: nat) returns (r: Result<Bytes>)
    ensures r == WriteDeb(control, data, epoch)
    ensures r.Ok? <==> epoch < Pow10(12) && |control| < Pow10(10) && |data| < Pow10(10)
    ensures r.Ok? ==> Packaged(r.value, control, data, epoch)
  {
    WriteDebExact(control, data, epoch);
    hide Pow10, Packaged;
    var members := [(BINARY, VERSION), (CONTROL, control), (DATA, data)];
    var package := MAGIC;
    var i := 0;
    hide Header, Ascii;
    while i < 3
      invariant 0 <= i <= 3
      invariant i >= 1 ==> Member(BINARY, VERSION, epoch).Ok?
      invariant i >= 2 ==> Member(CONTROL, control, epoch).Ok?
      invariant i >= 3 ==> Member(DATA, data, epoch).Ok?
      invariant package == MAGIC
        + (if i >= 1 then Member(BINARY, VERSION, epoch).value else [])
        + (if i >= 2 then Member(CONTROL, control, epoch).value else [])
        + (if i >= 3 then Member(DATA, data, epoch).value else [])
    {
      var (name, source) := members[i];
      var header := Header(name, |source|, epoch);
      if header.Error? {
        return Error(header.reason);
      }
      package := package + (header.value + source + Padding(|source|));
      i := i + 1;
    }
    return Ok(package);
  }
}
