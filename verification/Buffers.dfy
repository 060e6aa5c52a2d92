/** The byte buffer of mnode_buffer.c.bak: integers in both byte orders, fill, copy, concatenation
    and the text encodings, over one allocation that is replaced only by `concat`. */
module Buffers {
  import opened Wrappers
  import opened Sequences
  import opened Bytes
  import Utf8

  const MAX_LENGTH: nat := 0x3fff_ffff       // what a buffer may be created with
  const MAX_OBJECT: nat := 0x7fff_ffff       // what an allocation can be on a 32-bit machine

  /** What a call gives JavaScript: `undefined`, or a value; or neither, because the C code goes on to
      touch memory outside the buffer. */
  datatype Access<T> = Undefined | Outside | Done(value: T)

  /** The bytes of a window in the order a read takes them, high end first. */
  function Ordered(window: seq<byte>, bigEndian: bool): seq<byte> {
    if bigEndian then window else Reverse(window)
  }

  predicate Width(bytes: nat) {
    bytes == 1 || bytes == 2 || bytes == 4
  }

  function Number(v: nat, bytes: nat, sign: bool): int {
    if sign then Signed(v, bytes) else v
  }

  /** Congruent to `v`, and in the signed or the unsigned range. */
  lemma NumberReads(v: nat, bytes: nat, sign: bool)
    requires Width(bytes) && v < Pow256(bytes)
    ensures var x := Number(v, bytes, sign);
      x % Pow256(bytes) == v && if sign then 0 - Pow256(bytes) <= 2 * x < Pow256(bytes) else x == v
  {
    SignedRange(v, bytes);
  }

  lemma Powers()
    ensures Pow256(1) == 0x100 && Pow256(2) == 0x1_0000 && Pow256(3) == 0x100_0000 && Pow256(4) == U32
  {
    assert Pow256(0) == 1;
  }

  /** The C casts to int8_t, int16_t and int32_t. */
  function CastSigned(v: nat, bytes: nat): int {
    if bytes == 1 then (if v % 0x100 >= 0x80 then v % 0x100 - 0x100 else v % 0x100)
    else if bytes == 2 then (if v % 0x1_0000 >= 0x8000 then v % 0x1_0000 - 0x1_0000 else v % 0x1_0000)
    else (if v % U32 >= 0x8000_0000 then v % U32 - U32 else v % U32)
  }

  lemma CastIsSigned(v: nat, bytes: nat)
    requires Width(bytes) && v < Pow256(bytes)
    ensures CastSigned(v, bytes) == Signed(v, bytes)
  {
    Powers();
  }

  function Wrap32(x: int): (r: nat)
    ensures 0 <= x < U32 ==> r == x
  {
    x % U32
  }

  /** `jerry_buffer_read_bytes` and `jerry_buffer_write_bytes` add offset and width in 32 bits. */
  function Beyond(offset: nat, bytes: nat): nat {
    (offset + bytes) % U32
  }

  /** The 32-bit bounds test admits exactly the windows inside the buffer, provided the sum does not
      wrap; a sum that wraps is admitted whenever what is left of it fits. */
  lemma BoundsTest(offset: nat, bytes: nat, bufsize: nat)
    requires offset < U32 && Width(bytes) && bufsize <= MAX_OBJECT
    ensures Beyond(offset, bytes) <= bufsize <==>
      offset + bytes <= bufsize || (offset + bytes >= U32 && offset + bytes - U32 <= bufsize)
  {
  }

  lemma OrderedAt(s: seq<byte>, offset: nat, bytes: nat, bigEndian: bool, i: nat)
    requires offset + bytes <= |s| && i < bytes
    ensures Ordered(s[offset..offset + bytes], bigEndian)[i] ==
      s[if bigEndian then offset + i else offset + bytes - 1 - i]
  {
    var w := s[offset..offset + bytes];
    if bigEndian {
      assert w[i] == s[offset + i];
    } else {
      var j := bytes - 1 - i;
      assert Reverse(w)[i] == w[j] && w[j] == s[offset + j];
    }
  }

  /** The 32-bit index of round `i` of the loops over a window, upwards or downwards. */
  function IndexAt(offset: nat, bytes: nat, up: bool, i: nat): nat {
    Wrap32(if up then offset + i else offset + bytes - 1 - i)
  }

  lemma NextIndex(offset: nat, bytes: nat, up: bool, i: nat)
    requires i + 1 < bytes
    ensures Wrap32(IndexAt(offset, bytes, up, i) + (if up then 1 else -1)) == IndexAt(offset, bytes, up, i + 1)
  {
  }

  /** Inside the buffer the index does not wrap; a window whose sum wraps has its first byte outside. */
  lemma IndexIs(offset: nat, bytes: nat, size: nat, up: bool, i: nat)
    requires offset < U32 && Width(bytes) && Beyond(offset, bytes) <= size <= MAX_OBJECT && i < bytes
    ensures offset + bytes <= size ==>
      IndexAt(offset, bytes, up, i) == if up then offset + i else offset + bytes - 1 - i
    ensures offset + bytes > size && (if up then i == 0 else i == bytes - 1) ==>
      IndexAt(offset, bytes, up, i) >= size
  {
    BoundsTest(offset, bytes, size);
  }

  /** The number read from a window, byte by byte. */
  lemma WindowDigit(s: seq<byte>, offset: nat, bytes: nat, bigEndian: bool, j: nat)
    requires offset + bytes <= |s| && j < bytes
    ensures Shr(Decode(Ordered(s[offset..offset + bytes], bigEndian)), j) % 256 ==
      s[if bigEndian then offset + bytes - 1 - j else offset + j]
  {
    OrderedAt(s, offset, bytes, bigEndian, bytes - 1 - j);
    DecodeDigit(Ordered(s[offset..offset + bytes], bigEndian), j);
  }

  /** A round of the read loop: shifting left by 8 in 32 bits loses nothing. */
  lemma ReadRound(w: seq<byte>, i: nat)
    requires i < |w| <= 4
    ensures Decode(w[..i + 1]) == Decode(w[..i]) * 256 % U32 + w[i]
  {
    assert w[..i + 1][..i] == w[..i];
    DecodeBound(w[..i]);
    Powers();
    assert Pow256(i) <= Pow256(3);
  }

  /** The contents with the window at `offset` replaced. */
  function Written(s: seq<byte>, offset: nat, w: seq<byte>): seq<byte>
    requires offset + |w| <= |s|
  {
    s[..offset] + w + s[offset + |w|..]
  }

  /** Bytes laid out in one order and read in the same or the other. */
  lemma DecodeOrdered(v: nat, bytes: nat, writeBig: bool, readBig: bool)
    ensures Decode(Ordered(Ordered(Encode(v, bytes), writeBig), readBig)) ==
      if writeBig == readBig then v % Pow256(bytes) else ByteReversal(v, bytes)
  {
    DecodeEncode(v, bytes);
    assert Reverse(Reverse(Encode(v, bytes))) == Encode(v, bytes);
  }

  lemma WrittenThere(s: seq<byte>, offset: nat, w: seq<byte>)
    requires offset + |w| <= |s|
    ensures |Written(s, offset, w)| == |s| && Written(s, offset, w)[offset..offset + |w|] == w
  {
  }

  /** Where round `i` of the write loop writes. */
  function Spot(offset: nat, bytes: nat, bigEndian: bool, i: nat): int {
    if bigEndian then offset + (bytes - 1 - i) else offset + i
  }

  lemma WrittenByte(s: seq<byte>, offset: nat, v: nat, bytes: nat, bigEndian: bool, i: nat)
    requires offset + bytes <= |s| && i < bytes
    ensures Written(s, offset, Ordered(Encode(v, bytes), bigEndian))[Spot(offset, bytes, bigEndian, i)]
      == Shr(v, i) % 256
  {
    EncodeDigit(v, bytes, i);
    var w := Ordered(Encode(v, bytes), bigEndian);
    if bigEndian {
      assert w[bytes - 1 - i] == Encode(v, bytes)[bytes - 1 - i];
    } else {
      assert w[i] == Encode(v, bytes)[bytes - 1 - i];
    }
  }

  /** The positions that the write loop has yet to fill after `i` rounds. */
  predicate Left(offset: nat, bytes: nat, bigEndian: bool, i: nat, k: nat) {
    if bigEndian then offset <= k < offset + bytes - i else offset + i <= k < offset + bytes
  }

  /** After `i` rounds the contents agree with the goal, but for what is left. */
  predicate Agrees(s: seq<byte>, goal: seq<byte>, offset: nat, bytes: nat, bigEndian: bool, i: nat) {
    && |s| == |goal|
    && forall k :: 0 <= k < |s| && !Left(offset, bytes, bigEndian, i, k) ==> s[k] == goal[k]
  }

  lemma OneMoreWritten(s: seq<byte>, goal: seq<byte>, offset: nat, bytes: nat, bigEndian: bool, i: nat)
    requires Agrees(s, goal, offset, bytes, bigEndian, i) && i < bytes && offset + bytes <= |s|
    ensures var at := Spot(offset, bytes, bigEndian, i);
      Agrees(s[at := goal[at]], goal, offset, bytes, bigEndian, i + 1)
  {
  }

  /** Repeated copies of `src`. */
  predicate Tiled(s: seq<byte>, src: seq<byte>)
    requires src != []
  {
    forall k :: 0 <= k < |s| ==> s[k] == src[k % |src|]
  }

  lemma TiledAt(s: seq<byte>, from: nat, to: nat, src: seq<byte>)
    requires from <= to <= |s| && src != [] && Tiled(s[from..to], src)
    ensures forall k :: from <= k < to ==> s[k] == src[(k - from) % |src|]
  {
    forall k | from <= k < to ensures s[k] == src[(k - from) % |src|] { assert s[from..to][k - from] == s[k]; }
  }

  method Memcpy(dst: array<byte>, at: nat, src: seq<byte>, n: nat)
    requires at + n <= dst.Length && n <= |src|
    modifies dst
    ensures dst[..] == old(dst[..at]) + src[..n] + old(dst[at + n..])
  {
    for i := 0 to n
      invariant dst[..] == old(dst[..at]) + src[..i] + old(dst[at + i..])
    {
      dst[at + i] := src[i];
    }
  }

  // ---- fill -----------------------------------------------------------------------------------

  /** What `fill` may be given: a number, another buffer, a string, or something it does not know. */
  datatype FillValue =
    | FromNumber(n: nat)
    | FromBuffer(source: Buffer)
    | FromString(s: seq<byte>)
    | FromOther

  lemma NumberBytes(n: nat)
    ensures Encode(n, 4) == [n / 0x100_0000 % 0x100, n / 0x1_0000 % 0x100, n / 0x100 % 0x100, n % 0x100]
  {
    var a := n / 256;
    var b := a / 256;
    assert Encode(b / 256, 1) == [b / 256 % 256] by { assert Encode(b / 256 / 256, 0) == []; }
    assert Encode(b, 2) == [b / 256 % 256, b % 256];
    assert Encode(a, 3) == [b / 256 % 256, b % 256, a % 256];
  }

  function Times(rounds: nat, n: nat): nat {
    rounds * n
  }

  lemma TimesSucc(rounds: nat, n: nat)
    ensures Times(rounds + 1, n) == Times(rounds, n) + n
  {
  }

  /** One more copy, begun at a multiple of the source's length, continues the tiling. */
  lemma TileMore(s: seq<byte>, src: seq<byte>, n: nat, rounds: nat)
    requires src != [] && Tiled(s, src) && |s| == Times(rounds, |src|) && n <= |src|
    ensures Tiled(s + src[..n], src)
  {
    forall k | |s| <= k < |s| + n
      ensures (s + src[..n])[k] == src[k % |src|]
    {
      DivUnique(k, |src|, rounds, k - |s|);
    }
  }

  lemma InSlot(slot: nat, k: nat)
    requires k < 4
    ensures (4 * slot + k) % 4 == k
  {
  }

  // ---- text -----------------------------------------------------------------------------------

  /** `jerry_int_to_hex`. */
  function IntToHex(value: nat): char
    requires value < 16
  {
    if value < 10 then ('0' as int + value) as char else ('A' as int + value - 10) as char
  }

  function Hex(bs: seq<byte>): (s: string)
    ensures |s| == 2 * |bs|
  {
    if bs == [] then []
    else Hex(bs[..|bs| - 1]) + [IntToHex(bs[|bs| - 1] / 16), IntToHex(bs[|bs| - 1] % 16)]
  }

  /** The value a character adds in `hex2int`: 0 for anything that is not a digit. */
  function HexDigit(c: char): nat {
    if '0' <= c <= '9' then c as int - '0' as int
    else if 'a' <= c <= 'f' then c as int - 'a' as int + 10
    else if 'A' <= c <= 'F' then c as int - 'A' as int + 10
    else 0
  }

  /** `hex2int`: the first two characters of the string. */
  method HexToInt(str: string) returns (r: int)
    requires |str| >= 2
    ensures r == HexDigit(str[0]) * 16 + HexDigit(str[1])
  {
    r := 0;
    for i := 0 to 2
      invariant r == if i == 0 then 0 else if i == 1 then HexDigit(str[0]) * 16
                     else HexDigit(str[0]) * 16 + HexDigit(str[1])
    {
      if '0' <= str[i] <= '9' { r := r + (str[i] as int - '0' as int); }
      else if 'a' <= str[i] <= 'f' { r := r + (str[i] as int - 'a' as int + 10); }
      else if 'A' <= str[i] <= 'F' { r := r + (str[i] as int - 'A' as int + 10); }
      if i == 0 { r := r * 16; }
    }
  }

  /** Decoding each pair of hex digits gives the slice back. */
  lemma {:induction false} HexRoundTrip(bs: seq<byte>, i: nat)
    requires i < |bs|
    ensures HexDigit(Hex(bs)[2 * i]) * 16 + HexDigit(Hex(bs)[2 * i + 1]) == bs[i]
  {
    if i < |bs| - 1 { HexRoundTrip(bs[..|bs| - 1], i); }
  }

  /** The digits are upper-case. */
  lemma {:induction false} HexIsUpperCase(bs: seq<byte>, i: nat)
    requires i < 2 * |bs|
    ensures Hex(bs)[i] in "0123456789ABCDEF"
  {
    var n := |bs| - 1;
    if i < 2 * n {
      HexIsUpperCase(bs[..n], i);
    } else {
      var d: nat := if i == 2 * n then bs[n] / 16 else bs[n] % 16;
      assert IntToHex(d) == "0123456789ABCDEF"[d];
    }
  }

  /** The digits that `hex2int` knows, and that it takes anything else for 0. */
  lemma DigitValue(c: char)
    ensures forall d :: 0 <= d < 16 && ("0123456789ABCDEF"[d] == c || "0123456789abcdef"[d] == c) ==> HexDigit(c) == d
    ensures c !in "0123456789ABCDEF" && c !in "0123456789abcdef" ==> HexDigit(c) == 0
  {
    var upper, lower := "0123456789ABCDEF", "0123456789abcdef";
    var d := HexDigit(c);
    if d > 0 || c == '0' { assert d < 16 && (upper[d] == c || lower[d] == c); }
  }

  /** So different slices have different hex texts. */
  lemma HexInjective(a: seq<byte>, b: seq<byte>)
    requires Hex(a) == Hex(b)
    ensures a == b
  {
    forall i | 0 <= i < |a|
      ensures a[i] == b[i]
    {
      HexRoundTrip(a, i);
      HexRoundTrip(b, i);
    }
  }

  function Ascii(bs: seq<byte>): seq<byte> {
    if bs == [] || bs[0] % 0x80 == 0 then [] else [bs[0] % 0x80] + Ascii(bs[1..])
  }

  /** The bytes without their high bits, up to the first zero. */
  lemma {:induction false} AsciiIs(bs: seq<byte>)
    ensures |Ascii(bs)| <= |bs|
    ensures forall i :: 0 <= i < |Ascii(bs)| ==> Ascii(bs)[i] == bs[i] % 0x80 != 0
    ensures |Ascii(bs)| < |bs| ==> bs[|Ascii(bs)|] % 0x80 == 0
  {
    if bs != [] && bs[0] % 0x80 != 0 { AsciiIs(bs[1..]); }
  }

  lemma ScannerTakesAscii(str: seq<byte>)
    requires forall i :: 0 <= i < |str| ==> str[i] < 0x80
    ensures Utf8.Scan(str, |str|) == Some(true)
  {
    Utf8.AsciiAccepted(str);
    Utf8.ScanInside(str, |str|);
    assert str[..|str|] == str;
  }

  lemma AsciiSliceIs(s: seq<byte>, start: int, end: int)
    ensures !AsciiSlice(s, start, end).Undefined?
    ensures AsciiSlice(s, start, end).Outside? <==>
      start < end && (!(0 <= start < |s|) || (end > |s| && forall i :: start <= i < |s| ==> s[i] % 0x80 != 0))
    ensures AsciiSlice(s, start, end).Done? && start >= end ==> AsciiSlice(s, start, end).value == []
    ensures AsciiSlice(s, start, end).Done? && start < end ==>
      var str, n := AsciiSlice(s, start, end).value, |AsciiSlice(s, start, end).value|;
      && 0 <= start && n <= end - start && start + n <= |s|
      && (forall i :: 0 <= i < n ==> str[i] == s[start + i] % 0x80 != 0)
      && (n == end - start || (start + n < |s| && s[start + n] % 0x80 == 0))
  {
    if 0 <= start < |s| && start < end {
      var t := s[start..Clip(end, |s|)];
      AsciiIs(t);
      assert forall i :: 0 <= i < |t| ==> t[i] == s[start + i];
      assert forall i :: start <= i < start + |t| ==> s[i] == t[i - start];
    }
  }

  /** A round of the loop that strips the high bits, and its end. */
  predicate Stripped(bs: seq<byte>, str: seq<byte>, i: nat) {
    i <= |bs| && Ascii(bs) == str + Ascii(bs[i..])
  }

  lemma StripRound(bs: seq<byte>, str: seq<byte>, i: nat)
    requires i < |bs| && Stripped(bs, str, i)
    ensures if bs[i] % 0x80 == 0 then Ascii(bs) == str else Stripped(bs, str + [bs[i] % 0x80], i + 1)
  {
    var rest, c := bs[i..], bs[i] % 0x80;
    assert rest[0] == bs[i] && rest[1..] == bs[i + 1..];
    if c == 0 {
      assert Ascii(rest) == [];
    } else {
      assert Ascii(rest) == [c] + Ascii(bs[i + 1..]);
      assert str + ([c] + Ascii(bs[i + 1..])) == str + [c] + Ascii(bs[i + 1..]);
    }
  }

  lemma StripEnd(bs: seq<byte>, str: seq<byte>)
    requires Stripped(bs, str, |bs|)
    ensures Ascii(bs) == str
  {
  }

  /** With some `n` more bytes these pass the scanner. */
  ghost predicate CouldPass(s: seq<byte>, n: nat) {
    exists beyond :: |beyond| == n && Utf8.Accepts(s + beyond)
  }

  function Clip(end: int, n: nat): int {
    if end <= n then end else n
  }

  /** `toString("ascii")` of contents `s`. */
  function AsciiSlice(s: seq<byte>, start: int, end: int): Access<seq<byte>> {
    if start >= end then Done([])
    else if !(0 <= start < |s|) then Outside
    else
      var t := s[start..Clip(end, |s|)];
      if end <= |s| || |Ascii(t)| < |t| then Done(Ascii(t)) else Outside
  }

  /** The scan of a slice that begins inside the buffer. */
  lemma InsideScan(s: seq<byte>, start: nat, end: nat)
    requires start < |s| && start < end
    ensures Utf8.Scan(s[start..], end - start) ==
      if end <= |s| then Some(Utf8.Accepts(s[start..end]))
      else Utf8.Scan(s[start..], end - start)
    ensures end > |s| ==> (Utf8.Scan(s[start..], end - start) == Some(false) <==> !CouldPass(s[start..], end - |s|))
  {
    if end <= |s| {
      Utf8.ScanInside(s[start..], end - start);
      assert s[start..][..end - start] == s[start..end];
    } else {
      Utf8.ReadsBeyondExactly(s[start..], end - start);
      assert |Utf8.Zeros(end - |s|)| == end - |s|;
    }
  }

  class Buffer {
    var buffer: array<byte>
    var bufsize: nat

    ghost predicate Valid()
      reads this
    {
      buffer.Length == bufsize <= MAX_OBJECT
    }

    ghost function Contents(): (s: seq<byte>)
      requires Valid()
      reads this, buffer
      ensures |s| == bufsize
    {
      buffer[..]
    }

    constructor (size: nat)
      requires size <= MAX_LENGTH
      ensures Valid() && fresh(buffer) && bufsize == size
    {
      buffer := new byte[size];
      bufsize := size;
    }

    // ---- integers -----------------------------------------------------------------------------

    /** Reads a 1-, 2- or 4-byte integer; `undefined` when the window leaves the buffer, unless the sum
        of offset and width wraps to something inside it. */
    method ReadBytes(offset: nat, bytes: nat, bigEndian: bool, sign: bool) returns (r: Access<int>)
      requires Valid() && Width(bytes) && offset < U32
      ensures r ==
        if offset + bytes <= bufsize
        then Done(Number(Decode(Ordered(Contents()[offset..offset + bytes], bigEndian)), bytes, sign))
        else if offset + bytes >= U32 && offset + bytes - U32 <= bufsize then Outside
        else Undefined
      ensures r.Done? ==> offset + bytes <= bufsize
      ensures r.Done? ==> var v := Decode(Ordered(Contents()[offset..offset + bytes], bigEndian));
        && r.value % Pow256(bytes) == v
        && if sign then 0 - Pow256(bytes) <= 2 * r.value < Pow256(bytes) else r.value == v
      ensures r.Done? ==> forall j :: 0 <= j < bytes ==>
        Shr(r.value % Pow256(bytes), j) % 256 == Contents()[if bigEndian then offset + bytes - 1 - j else offset + j]
    {
      BoundsTest(offset, bytes, bufsize);
      if Beyond(offset, bytes) > bufsize {
        return Undefined;
      }
      var value := ReadWindow(offset, bytes, bigEndian);
      if !value.Done? {
        return Outside;
      }
      ghost var w := Ordered(Contents()[offset..offset + bytes], bigEndian);
      DecodeBound(w);
      CastIsSigned(Decode(w), bytes);
      NumberReads(Decode(w), bytes, sign);
      forall j | 0 <= j < bytes
        ensures Shr(Decode(w), j) % 256 == Contents()[if bigEndian then offset + bytes - 1 - j else offset + j]
      {
        WindowDigit(Contents(), offset, bytes, bigEndian, j);
      }
      return Done(if sign then CastSigned(value.value, bytes) else value.value);
    }

    method ReadWindow(offset: nat, bytes: nat, bigEndian: bool) returns (r: Access<nat>)
      requires Valid() && Width(bytes) && offset < U32 && Beyond(offset, bytes) <= bufsize
      ensures r == if offset + bytes <= bufsize
        then Done(Decode(Ordered(Contents()[offset..offset + bytes], bigEndian))) else Outside
    {
      ghost var w := [];
      if offset + bytes <= bufsize {
        w := Ordered(Contents()[offset..offset + bytes], bigEndian);
        forall i | 0 <= i < bytes ensures w[i] == Contents()[Spot(offset, bytes, !bigEndian, i)] {
          OrderedAt(Contents(), offset, bytes, bigEndian, i);
        }
      }
      r := ReadLoop(offset, bytes, bigEndian, w);
    }

    /** The read loop, up to the first access outside the buffer. */
    method ReadLoop(offset: nat, bytes: nat, bigEndian: bool, ghost w: seq<byte>) returns (r: Access<nat>)
      requires Valid() && Width(bytes) && offset < U32 && Beyond(offset, bytes) <= bufsize
      requires offset + bytes <= bufsize ==>
        |w| == bytes && (forall i :: 0 <= i < bytes ==> w[i] == Contents()[Spot(offset, bytes, !bigEndian, i)])
      ensures r == if offset + bytes <= bufsize then Done(Decode(w)) else Outside
    {
      ghost var inside := offset + bytes <= bufsize;
      var dir: int := if bigEndian then 1 else -1;
      var at := Wrap32(if bigEndian then offset else offset + bytes - 1);
      var value := 0;
      for i := 0 to bytes
        invariant inside ==> value == Decode(w[..i])
        invariant i < bytes ==> at == IndexAt(offset, bytes, bigEndian, i)
        invariant !inside ==> i < bytes && (bigEndian ==> i == 0)
      {
        IndexIs(offset, bytes, bufsize, bigEndian, i);
        if at >= bufsize {
          return Outside;
        }
        if inside {
          assert w[i] == buffer[at];
          ReadRound(w, i);
        }
        value := value * 256 % U32 + buffer[at];
        if i + 1 < bytes { NextIndex(offset, bytes, bigEndian, i); }
        at := Wrap32(at + dir);
      }
      assert w[..bytes] == w;
      return Done(value);
    }

    /** Writes the low bytes of a 32-bit value, with the same bounds test. */
    method WriteBytes(v: nat, offset: nat, bytes: nat, bigEndian: bool) returns (r: Access<nat>)
      requires Valid() && Width(bytes) && offset < U32 && v < U32
      modifies buffer
      ensures r ==
        if offset + bytes <= bufsize then Done(offset + bytes)
        else if offset + bytes >= U32 && offset + bytes - U32 <= bufsize then Outside
        else Undefined
      ensures r.Undefined? ==> Contents() == old(Contents())
      ensures r.Done? ==> Contents() == Written(old(Contents()), offset, Ordered(Encode(v, bytes), bigEndian))
      ensures r.Done? ==>
        && (forall k :: 0 <= k < bufsize && !(offset <= k < offset + bytes) ==> Contents()[k] == old(Contents())[k])
        && (forall j :: 0 <= j < bytes ==>
              Contents()[if bigEndian then offset + bytes - 1 - j else offset + j] == Shr(v, j) % 256)
    {
      ghost var was := Contents();
      BoundsTest(offset, bytes, bufsize);
      if Beyond(offset, bytes) > bufsize {
        return Undefined;
      }
      var ok := WriteWindow(v, offset, bytes, bigEndian);
      if ok {
        forall j | 0 <= j < bytes
          ensures Contents()[if bigEndian then offset + bytes - 1 - j else offset + j] == Shr(v, j) % 256
        {
          WrittenByte(was, offset, v, bytes, bigEndian, j);
        }
      }
      return if ok then Done(offset + bytes) else Outside;
    }

    method WriteWindow(v: nat, offset: nat, bytes: nat, bigEndian: bool) returns (ok: bool)
      requires Valid() && Width(bytes) && offset < U32 && Beyond(offset, bytes) <= bufsize
      modifies buffer
      ensures ok <==> offset + bytes <= bufsize
      ensures ok ==> buffer[..] == Written(old(buffer[..]), offset, Ordered(Encode(v, bytes), bigEndian))
    {
      ghost var goal := buffer[..];
      if offset + bytes <= bufsize {
        goal := Written(buffer[..], offset, Ordered(Encode(v, bytes), bigEndian));
        forall i | 0 <= i < bytes ensures goal[Spot(offset, bytes, bigEndian, i)] == Shr(v, i) % 256 {
          WrittenByte(buffer[..], offset, v, bytes, bigEndian, i);
        }
      }
      ok := WriteLoop(v, offset, bytes, bigEndian, goal);
    }

    /** A store, unless it would leave the buffer. */
    method PutByte(at: nat, b: byte) returns (ok: bool)
      requires Valid()
      modifies buffer
      ensures ok <==> at < bufsize
      ensures buffer[..] == if ok then old(buffer[..])[at := b] else old(buffer[..])
    {
      ok := at < bufsize;
      if ok {
        buffer[at] := b;
      }
    }

    /** The write loop, up to the first access outside the buffer. */
    method WriteLoop(v: nat, offset: nat, bytes: nat, bigEndian: bool, ghost goal: seq<byte>) returns (ok: bool)
      requires Valid() && Width(bytes) && offset < U32 && Beyond(offset, bytes) <= bufsize
      requires offset + bytes <= bufsize ==>
        && Agrees(buffer[..], goal, offset, bytes, bigEndian, 0)
        && (forall i :: 0 <= i < bytes ==> goal[Spot(offset, bytes, bigEndian, i)] == Shr(v, i) % 256)
      modifies buffer
      ensures ok <==> offset + bytes <= bufsize
      ensures ok ==> buffer[..] == goal
    {
      ghost var inside := offset + bytes <= bufsize;
      var value := v;
      var dir: int := if bigEndian then -1 else 1;
      var at := Wrap32(if bigEndian then offset + bytes - 1 else offset);
      for i := 0 to bytes
        invariant value == Shr(v, i)
        invariant i < bytes ==> at == IndexAt(offset, bytes, !bigEndian, i)
        invariant !inside ==> i < bytes && (!bigEndian ==> i == 0)
        invariant inside ==> Agrees(buffer[..], goal, offset, bytes, bigEndian, i)
      {
        IndexIs(offset, bytes, bufsize, !bigEndian, i);
        if inside { OneMoreWritten(buffer[..], goal, offset, bytes, bigEndian, i); }
        var stored := PutByte(at, value % 256);
        if !stored {
          return false;
        }
        value := value / 256;
        if i + 1 < bytes { NextIndex(offset, bytes, !bigEndian, i); }
        at := Wrap32(at + dir);
      }
      return true;
    }

    /** Writing and reading back: in the same byte order the value modulo 256^bytes, in the opposite
        order its byte reversal; signed reads give the two's complement value. */
    method WriteThenRead(v: nat, offset: nat, bytes: nat, writeBig: bool, readBig: bool, sign: bool)
      returns (r: Access<int>)
      requires Valid() && Width(bytes) && offset + bytes <= bufsize && v < U32
      modifies buffer
      ensures r == Done(Number(
        if writeBig == readBig then v % Pow256(bytes) else ByteReversal(v, bytes), bytes, sign))
      ensures r.Done? && var w := if writeBig == readBig then v % Pow256(bytes) else ByteReversal(v, bytes);
        && r.value % Pow256(bytes) == w
        && if sign then 0 - Pow256(bytes) <= 2 * r.value < Pow256(bytes) else r.value == w
    {
      WrittenThere(Contents(), offset, Ordered(Encode(v, bytes), writeBig));
      var _ := WriteBytes(v, offset, bytes, writeBig);
      r := ReadBytes(offset, bytes, readBig, sign);
      DecodeOrdered(v, bytes, writeBig, readBig);
    }

    // ---- fill, copy, concat -------------------------------------------------------------------

    /** `fill`: repeats the source over the window [offset, end), clipped to the buffer.  With an empty
        source the loop never ends.  A buffer fills itself only where `memcpy` may: beyond the bytes
        it copies. */
    method Fill(value: FillValue, offset: Option<nat>, end: Option<nat>) returns (ends: bool)
      requires Valid() && (value.FromBuffer? ==> value.source.Valid())
      requires value.FromBuffer? && value.source.buffer == buffer ==>
        (if end.Some? && end.value < bufsize then end.value else bufsize)
          <= 2 * (if offset.Some? then offset.value else 0)
      modifies buffer
      ensures var o := if offset.Some? then offset.value else 0;
        var e := if end.Some? && end.value < bufsize then end.value else bufsize;
        && (ends <==> o >= e
                      || !(value.FromOther? || (value.FromString? && value.s == [])
                           || (value.FromBuffer? && value.source.bufsize == 0)))
        && forall k :: 0 <= k < bufsize ==>
             Contents()[k] ==
               if !ends || !(o <= k < e) then old(Contents())[k]
               else if value.FromNumber? then
                 [value.n / 0x100_0000 % 0x100, value.n / 0x1_0000 % 0x100, value.n / 0x100 % 0x100,
                  value.n % 0x100][(k - o) % 4]
               else if value.FromBuffer? then old(value.source.Contents())[(k - o) % value.source.bufsize]
               else value.s[(k - o) % |value.s|]
    {
      var source := [];
      if value.FromNumber? {
        var n := value.n;
        source := [n / 0x100_0000 % 0x100, n / 0x1_0000 % 0x100, n / 0x100 % 0x100, n % 0x100];
      } else if value.FromBuffer? {
        source := value.source.buffer[..];
      }
      var at := if offset.Some? then offset.value else 0;
      var stop := bufsize;
      if end.Some? {
        stop := end.value;
        if stop > bufsize {
          stop := bufsize;
        }
      }
      if at >= stop {
        return true;
      }
      if value.FromString? {
        source := value.s;
      }
      ends := FillOver(source, at, stop);
    }

    /** With nothing to copy the loop would go on for ever. */
    method FillOver(source: seq<byte>, offset: nat, end: nat) returns (ends: bool)
      requires Valid() && offset < end <= bufsize
      modifies buffer
      ensures ends <==> source != []
      ensures forall k :: 0 <= k < bufsize ==>
        buffer[k] == if ends && offset <= k < end then source[(k - offset) % |source|] else old(buffer[k])
    {
      if |source| == 0 {
        return false;
      }
      ghost var was := buffer[..];
      FillLoop(source, offset, end);
      TiledAt(buffer[..], offset, end, source);
      SameOutside(was, buffer[..], offset, end);
      return true;
    }

    lemma SameOutside(s: seq<byte>, s': seq<byte>, offset: nat, end: nat)
      requires offset <= end <= |s| == |s'| && s'[..offset] == s[..offset] && s'[end..] == s[end..]
      ensures forall k :: 0 <= k < |s| && !(offset <= k < end) ==> s'[k] == s[k]
    {
      forall k | 0 <= k < |s| && !(offset <= k < end) ensures s'[k] == s[k] {
        if k < offset {
          assert s'[..offset][k] == s[..offset][k];
        } else {
          assert s'[end..][k - end] == s[end..][k - end];
        }
      }
    }

    method FillLoop(source: seq<byte>, offset: nat, end: nat)
      requires Valid() && offset < end <= bufsize && source != []
      modifies buffer
      ensures buffer[..offset] == old(buffer[..offset]) && buffer[end..] == old(buffer[end..])
      ensures Tiled(buffer[offset..end], source)
    {
      var at := offset;
      var left := end - offset;
      ghost var rounds := 0;
      while left > 0
        invariant offset <= at && left >= 0 && at + left == end
        invariant left > 0 ==> at - offset == Times(rounds, |source|)
        invariant buffer[..offset] == old(buffer[..offset]) && buffer[end..] == old(buffer[end..])
        invariant Tiled(buffer[offset..at], source)
      {
        var bytes := |source|;
        if bytes > left {
          bytes := left;
        }
        FillRound(source, offset, at, bytes, end, rounds);
        TimesSucc(rounds, |source|);
        at := at + bytes;
        left := left - bytes;
        rounds := rounds + 1;
      }
    }

    /** One copy of the source, or of its beginning. */
    method FillRound(source: seq<byte>, ghost offset: nat, at: nat, bytes: nat, ghost end: nat, ghost rounds: nat)
      requires Valid() && offset <= at && at + bytes <= end <= bufsize && source != [] && bytes <= |source|
      requires at - offset == Times(rounds, |source|) && Tiled(buffer[offset..at], source)
      modifies buffer
      ensures buffer[..offset] == old(buffer[..offset]) && buffer[end..] == old(buffer[end..])
      ensures Tiled(buffer[offset..at + bytes], source)
    {
      ghost var before := buffer[..];
      Memcpy(buffer, at, source, bytes);
      FillSlices(before, buffer[..], offset, at, source[..bytes], end);
      TileMore(before[offset..at], source, bytes, rounds);
    }

    lemma FillSlices(s: seq<byte>, s': seq<byte>, offset: nat, at: nat, piece: seq<byte>, end: nat)
      requires offset <= at && at + |piece| <= end <= |s|
      requires s' == s[..at] + piece + s[at + |piece|..]
      ensures s'[..offset] == s[..offset] && s'[end..] == s[end..]
      ensures s'[offset..at + |piece|] == s[offset..at] + piece
    {
    }

    method FillNumber(n: nat, offset: nat, end: nat)
      requires Valid() && end <= bufsize
      modifies buffer
      ensures forall k :: offset <= k < end ==> buffer[k] == Encode(n, 4)[(k - offset) % 4]
    {
      var _ := Fill(FromNumber(n), Some(offset), Some(end));
      NumberBytes(n);
      forall k | offset <= k < end ensures buffer[k] == Encode(n, 4)[(k - offset) % 4] {
        assert Contents()[k] == buffer[k];
      }
    }

    /** After filling with a number, every whole 4-byte slot reads back as that number. */
    method FillThenRead(n: nat, offset: nat, end: nat, slot: nat) returns (r: Access<int>)
      requires Valid() && n < U32 && offset + 4 * slot + 4 <= end <= bufsize
      modifies buffer
      ensures r == Done(n)
    {
      FillNumber(n, offset, end);
      SlotBytes(Contents(), n, offset, end, slot);
      r := ReadBytes(offset + 4 * slot, 4, true, false);
      ReadsBack(n);
    }

    lemma ReadsBack(n: nat)
      requires n < U32
      ensures Number(Decode(Ordered(Encode(n, 4), true)), 4, false) == n
    {
      DecodeEncode(n, 4);
      Powers();
    }

    lemma SlotBytes(s: seq<byte>, n: nat, offset: nat, end: nat, slot: nat)
      requires offset + 4 * slot + 4 <= end <= |s|
      requires forall k :: offset <= k < end ==> s[k] == Encode(n, 4)[(k - offset) % 4]
      ensures s[offset + 4 * slot..offset + 4 * slot + 4] == Encode(n, 4)
    {
      var at := offset + 4 * slot;
      forall k: nat | k < 4 ensures s[at..at + 4][k] == Encode(n, 4)[k] {
        InSlot(slot, k);
        assert s[at..at + 4][k] == s[at + k] && at + k - offset == 4 * slot + k;
      }
    }

    /** `copy`: all of [sourceStart, sourceEnd) goes to `targetStart`, or nothing moves.  Within one
        buffer the two windows must not overlap, as `memcpy` asks. */
    method Copy(target: Buffer, targetStart: int, sourceStart: int, end: int) returns (r: Option<int>)
      requires Valid() && target.Valid()
      requires var stop := if end == -1 then bufsize else end;
        target.buffer == buffer && 0 <= targetStart < target.bufsize && 0 <= sourceStart < stop <= bufsize
        && targetStart + (stop - sourceStart) <= target.bufsize ==>
          targetStart + (stop - sourceStart) <= sourceStart || stop <= targetStart
      modifies target.buffer
      ensures var stop := if end == -1 then bufsize else end;
        if && 0 <= targetStart < target.bufsize && 0 <= sourceStart < stop <= bufsize
           && targetStart + (stop - sourceStart) <= target.bufsize
        then
          && r == Some(stop - sourceStart)
          && target.Contents() == old(target.Contents())[..targetStart] + old(Contents())[sourceStart..stop]
               + old(target.Contents())[targetStart + (stop - sourceStart)..]
        else r == None && target.Contents() == old(target.Contents())
    {
      var sourceEnd := end;
      if sourceEnd == -1 {
        sourceEnd := bufsize;
      }
      if targetStart < 0 || targetStart >= target.bufsize ||
         sourceStart < 0 || sourceStart >= bufsize ||
         sourceEnd < 0 || sourceEnd <= sourceStart || sourceEnd > bufsize {
        return None;
      }
      if sourceEnd - sourceStart > target.bufsize - targetStart {
        return None;
      }
      var slice := buffer[sourceStart..sourceEnd];
      assert slice[..|slice|] == slice;
      Memcpy(target.buffer, targetStart, slice, |slice|);
      return Some(sourceEnd - sourceStart);
    }

    /** `realloc` to a larger size: the old bytes come first. */
    method Grow(size: nat) returns (ptr: array<byte>)
      requires Valid() && bufsize <= size
      ensures fresh(ptr) && ptr.Length == size && ptr[..bufsize] == Contents()
    {
      ptr := new byte[size];
      Memcpy(ptr, 0, buffer[..], bufsize);
    }

    /** `concat`: grows this buffer in place by the target's bytes, which may be its own; an empty
        buffer stays empty whatever is appended, and one that cannot be grown stays as it is. */
    method Concat(target: Buffer, grows: bool) returns (self: bool)
      requires Valid() && target.Valid() && (grows ==> bufsize + target.bufsize <= MAX_OBJECT)
      modifies this
      ensures Valid() && (self <==> old(bufsize) == 0 || old(target.bufsize) == 0)
      ensures Contents() ==
        if old(bufsize) == 0 then []
        else if old(target.bufsize) == 0 || !grows then old(Contents())
        else old(Contents()) + old(target.Contents())
      ensures target != this ==> target.Contents() == old(target.Contents())
    {
      if target.bufsize == 0 || bufsize == 0 {
        return true;
      }
      if !grows {
        return false;
      }
      ghost var s, t := Contents(), target.Contents();
      var n, m := bufsize, target.bufsize;
      var ptr := Grow(n + m);
      buffer := ptr;
      assert buffer[..n] == s && target.buffer[..][..m] == t;
      Memcpy(buffer, n, target.buffer[..], m);
      assert buffer[..] == s + t;
      bufsize := n + m;
      return false;
    }

    // ---- text ---------------------------------------------------------------------------------

    /** `toString("hex")`, up to the first byte outside the buffer; the text is allocated first. */
    method ToHex(start: int, end: int, fits: bool) returns (r: Access<string>)
      requires Valid() && (fits ==> 2 * (end - start) + 1 <= MAX_OBJECT)
      ensures r ==
        if start >= end || !fits then Undefined
        else if 0 <= start && end <= bufsize then Done(Hex(Contents()[start..end]))
        else Outside
    {
      if end - start <= 0 {
        return Undefined;
      }
      if !fits {
        return Undefined;
      }
      var hexbuf: string := [];
      ghost var s := if 0 <= start < end <= bufsize then buffer[start..end] else [];
      for i := 0 to end - start
        invariant i > 0 ==> 0 <= start && start + i <= bufsize
        invariant 0 <= start && end <= bufsize ==> hexbuf == Hex(s[..i])
      {
        if i + start < 0 || i + start >= bufsize {
          return Outside;
        }
        var b := buffer[i + start];
        var high := b / 16;
        var low := b % 16;
        hexbuf := hexbuf + [IntToHex(high), IntToHex(low)];
        assert 0 <= start && end <= bufsize ==> s[..i + 1][..i] == s[..i];
      }
      assert s[..end - start] == s;
      return Done(hexbuf);
    }

    /** `toString("ascii")`: the high bits go, the first zero ends it, and the scanner always takes the
        result; a slice that leaves the buffer is harmless exactly when a zero comes before.  A copy as
        large as the buffer is allocated first. */
    method ToAscii(start: int, end: int, fits: bool) returns (r: Access<seq<byte>>)
      requires Valid()
      ensures r.Undefined? <==> !fits
      ensures var s := Contents();
        fits ==>
          (r.Outside? <==>
            start < end && (!(0 <= start < |s|) || (end > |s| && forall i :: start <= i < |s| ==> s[i] % 0x80 != 0)))
      ensures r.Done? && start >= end ==> r.value == []
      ensures r.Done? && start < end ==>
        var s, n := Contents(), |r.value|;
        && 0 <= start && n <= end - start && start + n <= |s|
        && (forall i :: 0 <= i < n ==> r.value[i] == s[start + i] % 0x80 != 0)
        && (n == end - start || (start + n < |s| && s[start + n] % 0x80 == 0))
    {
      if !fits {
        return Undefined;
      }
      r := Strip(start, end);
      AsciiSliceIs(Contents(), start, end);
      if r.Done? {
        ScannerTakesAscii(r.value);
        var ok := Utf8.IsUtf8(r.value, |r.value|);
        if ok != Some(true) {
          return Undefined;
        }
      }
    }

    method Strip(start: int, end: int) returns (r: Access<seq<byte>>)
      requires Valid()
      ensures r == AsciiSlice(Contents(), start, end)
    {
      var str := [];
      var index := start;
      ghost var begins := 0 <= start < bufsize && start < end;
      ghost var s := if begins then Contents()[start..Clip(end, bufsize)] else [];
      assert s[0..] == s;
      while index < end
        invariant start <= index && |str| == index - start
        invariant !begins ==> index == start
        invariant begins ==> index <= end && Stripped(s, str, index - start)
      {
        if index < 0 || index >= bufsize {
          if begins { StripEnd(s, str); }
          return Outside;
        }
        var c := buffer[index] % 0x80;
        StripRound(s, str, index - start);
        if c == 0 {
          return Done(str);
        }
        str := str + [c];
        index := index + 1;
      }
      if begins { StripEnd(s, str); }
      return Done(str);
    }

    /** `toString("utf8")`: the slice if the scanner accepts it.  A slice that leaves the buffer is read
        beyond it exactly if bytes could stand there with which the scanner would accept; a backward
        one is accepted unseen, and then read. */
    method ToUtf8(start: int, end: int) returns (r: Access<seq<byte>>)
      requires Valid()
      ensures start == end ==> r == Done([])
      ensures start != end ==>
        (r.Done? <==> 0 <= start < end <= bufsize && Utf8.Accepts(Contents()[start..end]))
      ensures start != end && r.Done? ==> r.value == Contents()[start..end]
      ensures start != end ==>
        (r.Undefined? <==>
          && 0 <= start < bufsize && start < end
          && if end <= bufsize then !Utf8.Accepts(Contents()[start..end])
             else forall beyond :: |beyond| == end - bufsize ==> !Utf8.Accepts(Contents()[start..] + beyond))
    {
      if start == end {
        return Done([]);
      }
      if start > end || start < 0 || start >= bufsize {
        return Outside;
      }
      InsideScan(Contents(), start, end);
      var ok := Utf8.IsUtf8(buffer[..][start..], end - start);
      if ok == Some(false) {
        return Undefined;
      }
      if ok.None? || end > bufsize {
        return Outside;
      }
      return Done(buffer[..][start..end]);
    }
  }

  /** A 32-bit big-endian number is its two 16-bit halves. */
  lemma WideIsTwoNarrow(s: seq<byte>, offset: nat)
    requires offset + 4 <= |s|
    ensures Decode(Ordered(s[offset..offset + 4], true)) ==
      Decode(Ordered(s[offset..offset + 2], true)) * 0x1_0000 + Decode(Ordered(s[offset + 2..offset + 4], true))
  {
    Powers();
    DecodeConcat(s[offset..offset + 2], s[offset + 2..offset + 4]);
    assert s[offset..offset + 4] == s[offset..offset + 2] + s[offset + 2..offset + 4];
  }
}
