/** jerry_str_is_utf8 of mnode_utils.c: a structural scanner for UTF-8 of up to three bytes. */
module Utf8 {
  import opened Bytes
  import opened Wrappers

  predicate Continuation(b: byte) {
    0x80 <= b < 0xC0
  }

  /** One complete unit: a 1-, 2- or 3-byte form, judged by its lead byte and continuations only. */
  predicate IsUnit(u: seq<byte>) {
    || (|u| == 1 && u[0] < 0x80)
    || (|u| == 2 && 0xC0 <= u[0] < 0xE0 && Continuation(u[1]))
    || (|u| == 3 && 0xE0 <= u[0] < 0xF0 && Continuation(u[1]) && Continuation(u[2]))
  }

  /** A lead byte with too little after it; what does follow it is not looked at. */
  predicate IsCut(t: seq<byte>) {
    || t == []
    || (|t| == 1 && 0xC0 <= t[0] < 0xF0)
    || (|t| == 2 && 0xE0 <= t[0] < 0xF0)
  }

  function Flatten(units: seq<seq<byte>>): seq<byte> {
    if units == [] then [] else units[0] + Flatten(units[1..])
  }

  /** These bytes are complete units followed by at most one that is cut off. */
  ghost predicate Splits(bs: seq<byte>, units: seq<seq<byte>>, tail: seq<byte>) {
    && (forall i :: 0 <= i < |units| ==> IsUnit(units[i]))
    && IsCut(tail)
    && bs == Flatten(units) + tail
  }

  /** The scan, as a function of what is left. */
  predicate Accepts(bs: seq<byte>) {
    if bs == [] then true
    else if bs[0] < 0x80 then Accepts(bs[1..])
    else if bs[0] < 0xC0 then false
    else if bs[0] < 0xE0 then |bs| < 2 || (Continuation(bs[1]) && Accepts(bs[2..]))
    else if bs[0] < 0xF0 then
      |bs| < 3 || (Continuation(bs[1]) && Continuation(bs[2]) && Accepts(bs[3..]))
    else false
  }

  /** The scan of `size` bytes of which the memory holds only `bs`: `None` when it reads beyond. */
  function Scan(bs: seq<byte>, size: int): Option<bool>
    decreases |bs|
  {
    if size <= 0 then Some(true)
    else if bs == [] then None
    else if bs[0] < 0x80 then Scan(bs[1..], size - 1)
    else if bs[0] < 0xC0 then Some(false)
    else if bs[0] < 0xE0 then
      if size < 2 then Some(true)
      else if |bs| < 2 then None
      else if !Continuation(bs[1]) then Some(false)
      else Scan(bs[2..], size - 2)
    else if bs[0] < 0xF0 then
      if size < 3 then Some(true)
      else if |bs| < 2 then None
      else if !Continuation(bs[1]) then Some(false)
      else if |bs| < 3 then None
      else if !Continuation(bs[2]) then Some(false)
      else Scan(bs[3..], size - 3)
    else Some(false)
  }

  /** The scanner itself: a pointer moved over the bytes, and a result flag. */
  method IsUtf8(bs: seq<byte>, size: int) returns (ret: Option<bool>)
    ensures ret == Scan(bs, size)
    ensures 0 <= size <= |bs| ==> (ret == Some(true) <==> exists units, tail :: Splits(bs[..size], units, tail))
  {
    if 0 <= size <= |bs| {
      ScanInside(bs, size);
      AcceptsExactly(bs[..size]);
    }
    var start := 0;
    var end := size;
    assert bs[0..] == bs;
    while start < end
      invariant 0 <= start <= |bs| && (start <= end || size <= 0)
      invariant Scan(bs, size) == Scan(bs[start..], size - start)
      decreases end - start
    {
      ghost var rest := bs[start..];
      if start >= |bs| { return None; }
      if bs[start] < 0x80 {
        start := start + 1;
        assert rest[1..] == bs[start..];
      } else if bs[start] < 0xC0 {
        return Some(false);
      } else if bs[start] < 0xE0 {
        if start >= end - 1 {
          return Some(true);
        }
        if start + 1 >= |bs| { return None; }
        if !(0x80 <= bs[start + 1] < 0xC0) {
          return Some(false);
        }
        start := start + 2;
        assert rest[2..] == bs[start..];
      } else if bs[start] < 0xF0 {
        if start >= end - 2 {
          return Some(true);
        }
        if start + 1 >= |bs| { return None; }
        if !(0x80 <= bs[start + 1] < 0xC0) {
          return Some(false);
        }
        if start + 2 >= |bs| { return None; }
        if !(0x80 <= bs[start + 2] < 0xC0) {
          return Some(false);
        }
        start := start + 3;
        assert rest[3..] == bs[start..];
      } else {
        return Some(false);
      }
    }
    return Some(true);
  }

  /** How far a scanned unit reaches. */
  lemma {:induction false} ScanInside(bs: seq<byte>, size: nat)
    requires size <= |bs|
    ensures Scan(bs, size) == Some(Accepts(bs[..size]))
    decreases size
  {
    if size == 0 || 0x80 <= bs[0] < 0xC0 || bs[0] >= 0xF0 { return; }
    var k := FirstWidth(bs);
    if k <= size {
      ScanInside(bs[k..], size - k);
      assert bs[..size][k..] == bs[k..][..size - k];
    }
  }

  function Zeros(n: nat): (bs: seq<byte>)
    ensures |bs| == n
  {
    seq(n, _ => 0)
  }

  lemma ZerosAccepted(front: seq<byte>, n: nat)
    requires IsUnit(front) || front == []
    ensures Accepts(front + Zeros(n))
  {
    AsciiAccepted(Zeros(n));
    assert (front + Zeros(n))[|front|..] == Zeros(n);
  }

  /** When the scan reads beyond the memory, something there would make it accept. */
  lemma {:induction false} ScanBeyond(bs: seq<byte>, size: nat) returns (beyond: seq<byte>)
    requires size > |bs| && Scan(bs, size).None?
    ensures |beyond| == size - |bs| && Accepts(bs + beyond)
    decreases |bs|
  {
    var k := FirstWidth(bs);
    if k <= |bs| && bs != [] {
      beyond := ScanBeyond(bs[k..], size - k);
      assert (bs + beyond)[k..] == bs[k..] + beyond;
    } else {
      var more: seq<byte> := if k == |bs| + 1 then [0x80] else if k == |bs| + 2 then [0x80, 0x80] else [];
      beyond := more + Zeros(size - |bs| - |more|);
      ZerosAccepted(bs + more, size - |bs| - |more|);
      assert bs + beyond == bs + more + Zeros(size - |bs| - |more|);
    }
  }

  /** And something would make it reject: here, bytes that are never part of a unit. */
  lemma {:induction false} ScanBeyondRejects(bs: seq<byte>, size: nat) returns (beyond: seq<byte>)
    requires size > |bs| && Scan(bs, size).None?
    ensures |beyond| == size - |bs| && !Accepts(bs + beyond)
    decreases |bs|
  {
    var k := FirstWidth(bs);
    if k <= |bs| && bs != [] {
      beyond := ScanBeyondRejects(bs[k..], size - k);
      assert (bs + beyond)[k..] == bs[k..] + beyond;
    } else {
      beyond := seq(size - |bs|, _ => 0xFF);
    }
  }

  /** The bytes after the lead byte are as the scan wants them, as far as it asks. */
  predicate Goes(bs: seq<byte>) {
    && bs != [] && bs[0] < 0xF0 && !(0x80 <= bs[0] < 0xC0) && FirstWidth(bs) <= |bs|
    && (FirstWidth(bs) >= 2 ==> Continuation(bs[1]))
    && (FirstWidth(bs) == 3 ==> Continuation(bs[2]))
  }

  /** When the scan stays inside, nothing beyond makes a difference. */
  lemma {:induction false} ScanStays(bs: seq<byte>, size: nat, beyond: seq<byte>)
    requires size > |bs| && Scan(bs, size).Some? && |beyond| == size - |bs|
    ensures Scan(bs, size) == Some(Accepts(bs + beyond))
    decreases |bs|
  {
    var k := FirstWidth(bs);
    if Goes(bs) {
      ScanStays(bs[k..], size - k, beyond);
      assert (bs + beyond)[k..] == bs[k..] + beyond;
    }
  }

  /** A scan of more bytes than there are reads beyond them exactly when its answer depends on what
      stands there. */
  lemma ReadsBeyondExactly(bs: seq<byte>, size: nat)
    requires size > |bs|
    ensures Scan(bs, size).None? <==>
      exists a, b :: |a| == |b| == size - |bs| && Accepts(bs + a) && !Accepts(bs + b)
    ensures Scan(bs, size).Some? ==>
      forall a :: |a| == size - |bs| ==> Scan(bs, size) == Some(Accepts(bs + a))
  {
    if Scan(bs, size).None? {
      var a := ScanBeyond(bs, size);
      var b := ScanBeyondRejects(bs, size);
    } else {
      forall a | |a| == size - |bs| ensures Scan(bs, size) == Some(Accepts(bs + a)) { ScanStays(bs, size, a); }
    }
  }

  /** How many bytes the lead byte asks for. */
  function FirstWidth(bs: seq<byte>): nat {
    if bs == [] then 0 else if bs[0] < 0x80 then 1 else if bs[0] < 0xE0 then 2 else 3
  }

  lemma FirstPart(bs: seq<byte>)
    requires Accepts(bs)
    ensures var n := FirstWidth(bs);
      if n == 0 || |bs| < n then IsCut(bs) else IsUnit(bs[..n]) && Accepts(bs[n..])
  {
  }

  lemma OneMoreUnit(bs: seq<byte>, n: nat, rest: seq<seq<byte>>, tail: seq<byte>)
    requires n <= |bs| && IsUnit(bs[..n]) && Splits(bs[n..], rest, tail)
    ensures Splits(bs, [bs[..n]] + rest, tail)
  {
    var units := [bs[..n]] + rest;
    assert units[1..] == rest;
    assert bs == bs[..n] + bs[n..];
  }

  lemma {:induction false} AcceptedSplits(bs: seq<byte>) returns (units: seq<seq<byte>>, tail: seq<byte>)
    requires Accepts(bs)
    ensures Splits(bs, units, tail)
    decreases |bs|
  {
    var n := FirstWidth(bs);
    FirstPart(bs);
    if n == 0 || |bs| < n {
      units, tail := [], bs;
      assert bs == Flatten(units) + tail;
    } else {
      var rest;
      rest, tail := AcceptedSplits(bs[n..]);
      units := [bs[..n]] + rest;
      OneMoreUnit(bs, n, rest, tail);
    }
  }

  lemma {:induction false} SplitAccepted(bs: seq<byte>, units: seq<seq<byte>>, tail: seq<byte>)
    requires Splits(bs, units, tail)
    ensures Accepts(bs)
    decreases |units|
  {
    if units == [] {
      assert bs == tail;
    } else {
      var u := units[0];
      var rest := Flatten(units[1..]) + tail;
      assert bs == u + rest;
      assert bs[|u|..] == rest;
      SplitAccepted(rest, units[1..], tail);
    }
  }

  /** The scanner accepts exactly the concatenations of complete units plus at most one cut unit. */
  lemma AcceptsExactly(bs: seq<byte>)
    ensures Accepts(bs) <==> exists units, tail :: Splits(bs, units, tail)
  {
    if Accepts(bs) {
      var units, tail := AcceptedSplits(bs);
    }
    if exists units, tail :: Splits(bs, units, tail) {
      var units, tail :| Splits(bs, units, tail);
      SplitAccepted(bs, units, tail);
    }
  }

  /** Cutting an accepted string anywhere leaves an accepted string. */
  lemma {:induction false} PrefixClosed(bs: seq<byte>, n: nat)
    requires n <= |bs| && Accepts(bs)
    ensures Accepts(bs[..n])
    decreases |bs|
  {
    if n == 0 { return; }
    var k := if bs[0] < 0x80 then 1 else if bs[0] < 0xE0 then 2 else 3;
    if k <= |bs| && k <= n {
      PrefixClosed(bs[k..], n - k);
      assert bs[..n][k..] == bs[k..][..n - k];
    }
  }

  /** Complete text stays accepted when more accepted text follows. */
  lemma {:induction false} UnitsThen(units: seq<seq<byte>>, bs: seq<byte>)
    requires (forall i :: 0 <= i < |units| ==> IsUnit(units[i])) && Accepts(bs)
    ensures Accepts(Flatten(units) + bs)
    decreases |units|
  {
    if units == [] {
      assert Flatten(units) + bs == bs;
    } else {
      UnitsThen(units[1..], bs);
      var u, rest := units[0], Flatten(units[1..]) + bs;
      assert Flatten(units) + bs == u + rest;
      assert (u + rest)[|u|..] == rest;
    }
  }

  /** Text of 1-, 2- and 3-byte forms, judged by nothing but the ranges of lead bytes and continuations,
      is accepted, */
  lemma StructuralTextAccepted(chars: seq<seq<byte>>)
    requires forall u :: u in chars ==>
      || (|u| == 1 && u[0] < 0x80)
      || (|u| == 2 && 0xC0 <= u[0] < 0xE0 && 0x80 <= u[1] < 0xC0)
      || (|u| == 3 && 0xE0 <= u[0] < 0xF0 && 0x80 <= u[1] < 0xC0 && 0x80 <= u[2] < 0xC0)
    ensures Accepts(Flatten(chars))
  {
    UnitsThen(chars, []);
    assert Flatten(chars) + [] == Flatten(chars);
  }

  /** A character of section 4 of RFC 3629 in one of the forms UTF8-1, UTF8-2 and UTF8-3. */
  predicate RfcChar(u: seq<byte>) {
    || (|u| == 1 && u[0] <= 0x7F)
    || (|u| == 2 && 0xC2 <= u[0] <= 0xDF && 0x80 <= u[1] <= 0xBF)
    || (|u| == 3 && 0x80 <= u[2] <= 0xBF &&
        ((u[0] == 0xE0 && 0xA0 <= u[1] <= 0xBF)
         || (0xE1 <= u[0] <= 0xEC && 0x80 <= u[1] <= 0xBF)
         || (u[0] == 0xED && 0x80 <= u[1] <= 0x9F)
         || (0xEE <= u[0] <= 0xEF && 0x80 <= u[1] <= 0xBF)))
  }

  /** and so is every text of those characters. */
  lemma RfcTextAccepted(chars: seq<seq<byte>>)
    requires forall i :: 0 <= i < |chars| ==> RfcChar(chars[i])
    ensures Accepts(Flatten(chars))
  {
    StructuralTextAccepted(chars);
  }

  /** A form that is none of these is rejected wherever it begins, whatever follows: a continuation in
      the place of a lead byte, the lead byte of a longer form, or a complete form in which a
      continuation is missing. */
  lemma {:induction false} BadFormRejected(units: seq<seq<byte>>, bad: seq<byte>, rest: seq<byte>)
    requires forall i :: 0 <= i < |units| ==> IsUnit(units[i])
    requires
      || (|bad| == 1 && (0x80 <= bad[0] < 0xC0 || bad[0] >= 0xF0))
      || (|bad| == 2 && 0xC0 <= bad[0] < 0xE0 && !(0x80 <= bad[1] < 0xC0))
      || (|bad| == 3 && 0xE0 <= bad[0] < 0xF0 && !(0x80 <= bad[1] < 0xC0 && 0x80 <= bad[2] < 0xC0))
    ensures !Accepts(Flatten(units) + bad + rest)
    decreases |units|
  {
    if units == [] {
      assert Flatten(units) + bad + rest == bad + rest;
    } else {
      BadFormRejected(units[1..], bad, rest);
      var u, more := units[0], Flatten(units[1..]) + bad + rest;
      assert Flatten(units) + bad + rest == u + more;
      assert (u + more)[|u|..] == more;
    }
  }

  /** The four-byte form among them. */
  lemma FourByteFormRejected(units: seq<seq<byte>>, b: byte, rest: seq<byte>)
    requires (forall i :: 0 <= i < |units| ==> IsUnit(units[i])) && b >= 0xF0
    ensures !Accepts(Flatten(units) + [b] + rest)
  {
    BadFormRejected(units, [b], rest);
  }

  /** Bytes below 128 are always accepted. */
  lemma {:induction false} AsciiAccepted(bs: seq<byte>)
    requires forall i :: 0 <= i < |bs| ==> bs[i] < 0x80
    ensures Accepts(bs)
  {
    if bs != [] { AsciiAccepted(bs[1..]); }
  }

  /** The scanner is only structural: it takes forms that section 3 of RFC 3629 forbids, and a
      wrong second byte in a three-byte form that the end of the string cuts off. */
  lemma StructuralOnly()
    ensures Accepts([0xC0, 0x80]) && Accepts([0xED, 0xA0, 0x80]) && Accepts([0xE2, 0x41])
  {
    assert Accepts([0xC0, 0x80][2..]) && Accepts([0xED, 0xA0, 0x80][3..]);
  }
}
