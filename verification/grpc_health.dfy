/**
 The hand-written gRPC health codec (main.go, probeGRPCService and parseGRPCHealthStatus).  Wire
 formats as in "Base 128 Varints" and "Message Structure" of the Protocol Buffers encoding
 specification; binary.Uvarint and binary.AppendUvarint as in Go's standard library.
 */
module GrpcHealth {
  import opened Wrappers

  type byte = x: int | 0 <= x < 256

  const TWO63: int := 0x8000_0000_0000_0000
  const TWO64: int := 0x1_0000_0000_0000_0000
  const TWO32: int := 0x1_0000_0000

  // ---- varints ----

  datatype Varint = Value(v: nat, n: nat) | Bad

  /** binary.Uvarint on what is left after `k` bytes: at most ten bytes, the tenth at most 1. */
  function Uvarint(buf: seq<byte>, k: nat): (r: Varint)
    ensures r.Value? ==> 0 < r.n <= |buf|
  {
    if buf == [] || k >= 10 then Bad
    else
      var b := buf[0];
      if b < 128 then (if k == 9 && b > 1 then Bad else Value(b, 1))
      else
        match Uvarint(buf[1..], k + 1)
        case Bad => Bad
        case Value(v, n) => Value(b - 128 + 128 * v, n + 1)
  }

  /** Values that still fit after `k` bytes: 2^64 at the start. */
  function Limit(k: nat): (l: nat)
    ensures l >= 2
    decreases 10 - k
  {
    if k >= 9 then 2 else 128 * Limit(k + 1)
  }

  lemma LimitIsTwo64()
    ensures Limit(0) == TWO64
  {
    assert Limit(9) == 2 && Limit(8) == 0x100 && Limit(7) == 0x8000;
    assert Limit(6) == 0x40_0000 && Limit(5) == 0x2000_0000 && Limit(4) == 0x10_0000_0000;
    assert Limit(3) == 0x800_0000_0000 && Limit(2) == 0x4_0000_0000_0000 && Limit(1) == 0x200_0000_0000_0000;
  }

  /** A decoded varint always fits in 64 bits. */
  lemma {:induction false} UvarintFits(buf: seq<byte>, k: nat)
    requires Uvarint(buf, k).Value?
    ensures Uvarint(buf, k).v < Limit(k)
    decreases |buf|
  {
    if k < 9 {
      assert Limit(k) == 128 * Limit(k + 1);
    }
    if buf[0] >= 128 {
      UvarintFits(buf[1..], k + 1);
    }
  }

  /** Decoding looks at no byte beyond the varint it returns. */
  lemma {:induction false} UvarintIsLocal(p: seq<byte>, rest: seq<byte>, k: nat)
    requires Uvarint(p, k).Value? && Uvarint(p, k).n == |p|
    ensures Uvarint(p + rest, k) == Uvarint(p, k)
    decreases |p|
  {
    assert (p + rest)[1..] == p[1..] + rest;
    if p[0] >= 128 {
      UvarintIsLocal(p[1..], rest, k + 1);
    }
  }

  /** Base 128, least significant group first: the value of a varint's bytes less their top bits. */
  function Base128(p: seq<byte>): nat {
    if p == [] then 0
    else
      var low: int := p[0];
      low % 128 + 128 * Base128(p[1..])
  }

  /** `n` bytes of `p` are a varint, after `k` others: every byte but the last has its top bit set, there are at
      most ten, and the tenth is at most 1. */
  predicate IsEncoded(p: seq<byte>, n: nat, k: nat) {
    && 0 < n <= |p| && n + k <= 10 && p[n - 1] < 128 && (n + k == 10 ==> p[n - 1] <= 1)
    && forall i :: 0 <= i < n - 1 ==> p[i] >= 128
  }

  lemma {:induction false} DecodedIsEncoded(p: seq<byte>, k: nat)
    requires Uvarint(p, k).Value?
    ensures var n := Uvarint(p, k).n; IsEncoded(p, n, k) && Uvarint(p, k).v == Base128(p[..n])
    decreases |p|
  {
    var n := Uvarint(p, k).n;
    if p[0] >= 128 {
      DecodedIsEncoded(p[1..], k + 1);
      assert p[..n][1..] == p[1..][..n - 1];
      forall i | 0 <= i < n - 1
        ensures p[i] >= 128
      {
        assert i > 0 ==> p[i] == p[1..][i - 1];
      }
    } else {
      assert p[..1] == [p[0]] && Base128([]) == 0;
      assert [p[0]][1..] == [];
    }
  }

  lemma {:induction false} EncodedIsDecoded(p: seq<byte>, n: nat, k: nat)
    requires IsEncoded(p, n, k)
    ensures Uvarint(p, k) == Value(Base128(p[..n]), n)
    decreases |p|
  {
    if n > 1 {
      assert p[0] >= 128;
      EncodedIsDecoded(p[1..], n - 1, k + 1);
      assert p[..n][1..] == p[1..][..n - 1];
    } else {
      assert p[..1] == [p[0]] && Base128([]) == 0;
      assert [p[0]][1..] == [];
    }
  }

  /** Decoding succeeds exactly on varints, and gives their value in base 128. */
  lemma UvarintIsBase128(p: seq<byte>, n: nat, v: nat)
    ensures Uvarint(p, 0) == Value(v, n) <==> IsEncoded(p, n, 0) && v == Base128(p[..n])
  {
    if Uvarint(p, 0) == Value(v, n) {
      DecodedIsEncoded(p, 0);
    }
    if IsEncoded(p, n, 0) {
      EncodedIsDecoded(p, n, 0);
    }
  }

  /** binary.AppendUvarint to an empty slice. */
  function PutUvarint(v: nat): seq<byte> {
    if v < 128 then [v] else [128 + v % 128] + PutUvarint(v / 128)
  }

  lemma {:induction false} VarintRoundTrip(v: nat, k: nat, rest: seq<byte>)
    requires k <= 9 && v < Limit(k)
    ensures Uvarint(PutUvarint(v) + rest, k) == Value(v, |PutUvarint(v)|)
    decreases v
  {
    if v < 128 {
    } else {
      assert Limit(k) == 128 * Limit(k + 1);
      VarintRoundTrip(v / 128, k + 1, rest);
      assert (PutUvarint(v) + rest)[1..] == PutUvarint(v / 128) + rest;
    }
  }

  // ---- the parser ----

  datatype Parsed =
    | Status(status: int)
    | TooShort | Truncated | InvalidTag | InvalidVarint | InvalidLength | UnsupportedWireType
    | Panics    // a slice out of bounds
    | Endless   // the loop goes round forever

  /** uint64 to int. */
  function ToInt(v: nat): (r: int)
    ensures v < TWO64 ==> -TWO63 <= r < TWO63 && (r == v || r == v - TWO64)
  {
    if v < TWO63 then v else v - TWO64
  }

  /** Addition on int, which wraps. */
  function Plus(a: int, b: int): (r: int)
    ensures 0 <= a < TWO63 && -TWO63 <= b < TWO63 ==> -TWO63 <= r < TWO63 && (r == a + b || r == a + b - TWO64)
  {
    if a + b >= TWO63 then a + b - TWO64 else a + b
  }

  datatype Next = Goto(i: int) | Return(r: Parsed)

  /** One round of the loop at index `i`. */
  function Round(msg: seq<byte>, i: nat): Next
    requires i < |msg|
  {
    var t := Uvarint(msg[i..], 0);
    if t.Bad? then Return(InvalidTag)
    else
      var j := i + t.n;
      match t.v % 8
      case 0 =>
        var x := Uvarint(msg[j..], 0);
        if x.Bad? then Return(InvalidVarint)
        else if t.v / 8 == 1 then Return(Status(ToInt(x.v)))
        else Goto(j + x.n)
      case 1 => Goto(j + 8)
      case 2 =>
        var l := Uvarint(msg[j..], 0);
        if l.Bad? then Return(InvalidLength) else Goto(Plus(j, l.n + ToInt(l.v)))
      case 5 => Goto(j + 4)
      case _ => Return(UnsupportedWireType)
  }

  function Below(n: nat): (r: set<int>)
    ensures forall i :: i in r <==> 0 <= i < n
  {
    if n == 0 then {} else Below(n - 1) + {n - 1}
  }

  function Indices(msg: seq<byte>): set<int> {
    Below(|msg|)
  }

  /** The whole loop from index `i`, after rounds at the indices in `seen`.  A round depends on nothing but
      its index, so one that comes round again does so forever. */
  function ParseFrom(msg: seq<byte>, i: int, seen: set<int>): Parsed
    decreases Indices(msg) - seen
  {
    if i >= |msg| then Status(0)
    else if i < 0 then Panics
    else if i in seen then Endless
    else
      assert i in Indices(msg) - seen;
      match Round(msg, i)
      case Return(r) => r
      case Goto(i') => ParseFrom(msg, i', seen + {i})
  }

  /** The loop as it runs: its result if it is over within `n` rounds from index `i`. */
  function Within(msg: seq<byte>, i: int, n: nat): Option<Parsed>
    decreases n
  {
    if i >= |msg| then Some(Status(0))
    else if i < 0 then Some(Panics)
    else if n == 0 then None
    else
      match Round(msg, i)
      case Return(r) => Some(r)
      case Goto(i') => Within(msg, i', n - 1)
  }

  /** Index `j`, if it is in `s`, leads to another index in it, or to `next`. */
  ghost predicate StaysIn(msg: seq<byte>, s: set<int>, next: int, j: int) {
    j in s ==> 0 <= j < |msg| && Round(msg, j).Goto? && (Round(msg, j).i in s || Round(msg, j).i == next)
  }

  ghost predicate Closed(msg: seq<byte>, s: set<int>, next: int) {
    forall j :: StaysIn(msg, s, next, j)
  }

  /** One round of the loop as it runs. */
  lemma WithinStep(msg: seq<byte>, i: int, n: nat)
    requires 0 <= i < |msg| && Round(msg, i).Goto? && n > 0
    ensures Within(msg, i, n) == Within(msg, Round(msg, i).i, n - 1)
  {
  }

  /** A loop that comes back to where it began goes round forever. */
  lemma {:induction false} CycleNeverEnds(msg: seq<byte>, s: set<int>, start: int, i: int, n: nat)
    requires Closed(msg, s, start)
    ensures start in s && i in s ==> Within(msg, i, n).None?
    decreases n
  {
    if start in s && i in s {
      assert StaysIn(msg, s, start, i);
      if n > 0 {
        CycleNeverEnds(msg, s, start, Round(msg, i).i, n - 1);
        WithinStep(msg, i, n);
      }
    }
  }

  lemma ClosedGrows(msg: seq<byte>, s: set<int>, i: int)
    requires Closed(msg, s, i) && 0 <= i < |msg| && Round(msg, i).Goto?
    ensures Closed(msg, s + {i}, Round(msg, i).i)
  {
    forall j
      ensures StaysIn(msg, s + {i}, Round(msg, i).i, j)
    {
      assert StaysIn(msg, s, i, j);
    }
  }

  /** ParseFrom tells the loop's fate: whatever it says but Endless, the loop returns after some number of
      rounds; and if it says Endless, after none. */
  lemma {:induction false} ParseFromIsTheLoop(msg: seq<byte>, i: int, seen: set<int>) returns (rounds: nat)
    requires Closed(msg, seen, i)
    ensures !ParseFrom(msg, i, seen).Endless? ==> Within(msg, i, rounds) == Some(ParseFrom(msg, i, seen))
    ensures ParseFrom(msg, i, seen).Endless? ==> forall n: nat :: Within(msg, i, n).None?
    decreases Indices(msg) - seen
  {
    rounds := 0;
    if 0 <= i < |msg| {
      if i in seen {
        forall n: nat
          ensures Within(msg, i, n).None?
        {
          CycleNeverEnds(msg, seen, i, i, n);
        }
      } else {
        assert i in Indices(msg) - seen;
        var next := Round(msg, i);
        rounds := 1;
        if next.Goto? {
          ClosedGrows(msg, seen, i);
          var more := ParseFromIsTheLoop(msg, next.i, seen + {i});
          rounds := more + 1;
          if ParseFrom(msg, i, seen).Endless? {
            forall n: nat
              ensures Within(msg, i, n).None?
            {
              assert n > 0 ==> Within(msg, next.i, n - 1).None?;
            }
          }
        }
      }
    }
  }

  function BigEndian32(b: seq<byte>): nat
    requires |b| == 4
  {
    var b0: int, b1: int, b2: int, b3: int := b[0], b[1], b[2], b[3];
    b0 * 0x100_0000 + b1 * 0x1_0000 + b2 * 0x100 + b3
  }

  function PutBigEndian32(n: nat): seq<byte>
    requires n < TWO32
  {
    [n / 0x100_0000, n / 0x1_0000 % 256, n / 256 % 256, n % 256]
  }

  lemma BigEndianRoundTrip(n: nat)
    requires n < TWO32
    ensures BigEndian32(PutBigEndian32(n)) == n
  {
    var a, b, c := n / 0x100_0000, n / 0x1_0000, n / 256;
    assert c == b * 256 + c % 256 && b == a * 256 + b % 256 && n == c * 256 + n % 256;
  }

  /** Network byte order: base 256, most significant byte first. */
  function Base256(b: seq<byte>): nat {
    if b == [] then 0
    else
      var low: int := b[|b| - 1];
      256 * Base256(b[..|b| - 1]) + low
  }

  lemma BigEndianIsBase256(b: seq<byte>)
    requires |b| == 4
    ensures BigEndian32(b) == Base256(b)
  {
    assert b[..3][..2] == b[..2] && b[..2][..1] == b[..1] && b[..1][..0] == [];
    var b0: int, b1: int, b2: int, b3: int := b[0], b[1], b[2], b[3];
    assert Base256(b[..0]) == 0;
    assert Base256(b[..1]) == b0;
    assert Base256(b[..2]) == 256 * b0 + b1;
    assert Base256(b[..3]) == 256 * (256 * b0 + b1) + b2;
  }

  /** The message a frame carries, if it is all there. */
  function Message(frame: seq<byte>): seq<byte>
    requires |frame| >= 5 && |frame| >= 5 + BigEndian32(frame[1..5])
  {
    frame[5..5 + BigEndian32(frame[1..5])]
  }

  /** The loop body: a tag, then the switch over its wire type. */
  method NextField(msg: seq<byte>, start: nat) returns (next: Next)
    requires start < |msg|
    ensures next == Round(msg, start)
  {
    var i := start;
    var tag := Uvarint(msg[i..], 0);
    if tag.Bad? {
      return Return(InvalidTag);
    }
    i := i + tag.n;
    var field := tag.v / 8;
    match tag.v % 8 {
      case 0 =>
        var v := Uvarint(msg[i..], 0);
        if v.Bad? {
          return Return(InvalidVarint);
        }
        i := i + v.n;
        if field == 1 {
          return Return(Status(ToInt(v.v)));
        }
      case 1 =>
        i := i + 8;
      case 2 =>
        var l := Uvarint(msg[i..], 0);
        if l.Bad? {
          return Return(InvalidLength);
        }
        i := Plus(i, l.n + ToInt(l.v));
      case 5 =>
        i := i + 4;
      case _ =>
        return Return(UnsupportedWireType);
    }
    return Goto(i);
  }

  /** parseGRPCHealthStatus, with its loop.  `seen` is not in the source: where an index comes round again,
      the source does not return. */
  method ParseGRPCHealthStatus(frame: seq<byte>) returns (r: Parsed)
    ensures |frame| < 5 ==> r == TooShort
    ensures |frame| >= 5 ==>
              var n := BigEndian32(frame[1..5]);
              r == if |frame| < 5 + n then Truncated
                   else if 5 + n >= TWO32 then Panics
                   else ParseFrom(Message(frame), 0, {})
  {
    if |frame| < 5 {
      return TooShort;
    }
    var n := BigEndian32(frame[1..5]);
    if |frame| < 5 + n {
      return Truncated;
    }
    if 5 + n >= TWO32 {
      return Panics;   // 5+n wraps, and the slice ends before it begins
    }
    var msg := frame[5..5 + n];
    var i := 0;
    var seen: set<int> := {};
    while i < |msg|
      invariant ParseFrom(msg, 0, {}) == ParseFrom(msg, i, seen)
      decreases Indices(msg) - seen
    {
      if i < 0 {
        return Panics;
      }
      if i in seen {
        return Endless;
      }
      assert i in Indices(msg) - seen;
      var next := NextField(msg, i);
      if next.Return? {
        return next.r;
      }
      i, seen := next.i, seen + {i};
    }
    return Status(0);
  }

  // ---- what it parses ----

  /** A field as it lies on the wire.  Varints may be in any encoding the decoder accepts. */
  datatype Field =
    | VarintField(tag: seq<byte>, value: seq<byte>)
    | Fixed64Field(tag: seq<byte>, bytes: seq<byte>)
    | LengthField(tag: seq<byte>, len: seq<byte>, bytes: seq<byte>)
    | Fixed32Field(tag: seq<byte>, bytes: seq<byte>)

  function WireType(f: Field): nat {
    match f
    case VarintField(_, _) => 0
    case Fixed64Field(_, _) => 1
    case LengthField(_, _, _) => 2
    case Fixed32Field(_, _) => 5
  }

  /** `p` is one varint and nothing else. */
  predicate IsVarint(p: seq<byte>) {
    Uvarint(p, 0).Value? && Uvarint(p, 0).n == |p|
  }

  function VarintOf(p: seq<byte>): nat
    requires IsVarint(p)
  {
    Uvarint(p, 0).v
  }

  predicate WellFormed(f: Field) {
    && IsVarint(f.tag) && VarintOf(f.tag) % 8 == WireType(f)
    && match f
       case VarintField(_, value) => IsVarint(value)
       case Fixed64Field(_, bytes) => |bytes| == 8
       case LengthField(_, len, bytes) => IsVarint(len) && VarintOf(len) == |bytes|
       case Fixed32Field(_, bytes) => |bytes| == 4
  }

  function Number(f: Field): nat
    requires WellFormed(f)
  {
    VarintOf(f.tag) / 8
  }

  function Wire(f: Field): seq<byte> {
    match f
    case VarintField(tag, value) => tag + value
    case Fixed64Field(tag, bytes) => tag + bytes
    case LengthField(tag, len, bytes) => tag + (len + bytes)
    case Fixed32Field(tag, bytes) => tag + bytes
  }

  function WireAll(fs: seq<Field>): seq<byte> {
    if fs == [] then [] else Wire(fs[0]) + WireAll(fs[1..])
  }

  /** The value of the first varint field numbered 1, or UNKNOWN. */
  function FirstStatus(fs: seq<Field>): int
    requires forall f :: f in fs ==> WellFormed(f)
  {
    if fs == [] then 0
    else if fs[0].VarintField? && Number(fs[0]) == 1 then ToInt(VarintOf(fs[0].value))
    else FirstStatus(fs[1..])
  }

  lemma TagAt(pre: seq<byte>, tag: seq<byte>, after: seq<byte>)
    requires IsVarint(tag)
    ensures var msg := pre + (tag + after);
            Uvarint(msg[|pre|..], 0) == Uvarint(tag, 0) && msg[|pre| + |tag|..] == after
  {
    var msg := pre + (tag + after);
    assert msg[|pre|..] == tag + after;
    UvarintIsLocal(tag, after, 0);
  }

  lemma RoundOverVarint(pre: seq<byte>, tag: seq<byte>, value: seq<byte>, rest: seq<byte>)
    requires WellFormed(VarintField(tag, value))
    ensures var msg := pre + (tag + (value + rest));
            && |pre| < |msg|
            && Round(msg, |pre|) ==
               if VarintOf(tag) / 8 == 1 then Return(Status(ToInt(VarintOf(value)))) else Goto(|pre| + |tag| + |value|)
  {
    TagAt(pre, tag, value + rest);
    UvarintIsLocal(value, rest, 0);
  }

  lemma RoundOverBytes(pre: seq<byte>, tag: seq<byte>, len: seq<byte>, bytes: seq<byte>, rest: seq<byte>)
    requires WellFormed(LengthField(tag, len, bytes)) && |pre| + |tag| + |len| + |bytes| < TWO32
    ensures var msg := pre + (tag + (len + (bytes + rest)));
            |pre| < |msg| && Round(msg, |pre|) == Goto(|pre| + |tag| + |len| + |bytes|)
  {
    TagAt(pre, tag, len + (bytes + rest));
    UvarintIsLocal(len, bytes + rest, 0);
  }

  lemma RoundOverFixed(pre: seq<byte>, f: Field, rest: seq<byte>)
    requires WellFormed(f) && (f.Fixed64Field? || f.Fixed32Field?)
    ensures var msg := pre + (f.tag + (f.bytes + rest));
            |pre| < |msg| && Round(msg, |pre|) == Goto(|pre| + |f.tag| + |f.bytes|)
  {
    TagAt(pre, f.tag, f.bytes + rest);
  }

  /** `n` bytes from index `i` on are a varint of value `v`. */
  predicate VarintAt(msg: seq<byte>, i: nat, n: nat, v: nat) {
    i <= |msg| && IsEncoded(msg[i..], n, 0) && v == Base128(msg[i..][..n])
  }

  ghost predicate NoVarintAt(msg: seq<byte>, i: nat) {
    i <= |msg| && forall n: nat :: !IsEncoded(msg[i..], n, 0)
  }

  lemma VarintOrNone(msg: seq<byte>, i: nat)
    requires i <= |msg|
    ensures match Uvarint(msg[i..], 0)
            case Bad => NoVarintAt(msg, i)
            case Value(v, n) => VarintAt(msg, i, n, v)
  {
    match Uvarint(msg[i..], 0)
    case Value(v, n) => UvarintIsBase128(msg[i..], n, v);
    case Bad =>
      forall n: nat
        ensures !IsEncoded(msg[i..], n, 0)
      {
        UvarintIsBase128(msg[i..], n, Base128(msg[i..][..if n <= |msg[i..]| then n else 0]));
      }
  }

  /** What a round does, told by the bytes.  Without a varint for a tag, of `n` bytes and value `v`, it refuses;
      by the tag it refuses any wire type but 0, 1, 2 and 5, or a missing varint where a value or a length
      should be; it returns the value of field 1, and goes on over anything else. */
  lemma WhatARoundDoes(msg: seq<byte>, i: nat) returns (n: nat, v: nat, n': nat, v': nat)
    requires i < |msg|
    ensures Round(msg, i) == Return(InvalidTag) <==> NoVarintAt(msg, i)
    ensures Round(msg, i) != Return(InvalidTag) ==>
              && VarintAt(msg, i, n, v)
              && match Round(msg, i)
                 case Return(InvalidVarint) => v % 8 == 0 && NoVarintAt(msg, i + n)
                 case Return(InvalidLength) => v % 8 == 2 && NoVarintAt(msg, i + n)
                 case Return(UnsupportedWireType) => v % 8 !in {0, 1, 2, 5}
                 case Return(Status(x)) => v == 8 && VarintAt(msg, i + n, n', v') && x == ToInt(v')
                 case Return(_) => false
                 case Goto(j) =>
                   || (v % 8 == 0 && v != 8 && VarintAt(msg, i + n, n', v') && j == i + n + n')
                   || (v % 8 == 1 && j == i + n + 8)
                   || (v % 8 == 2 && VarintAt(msg, i + n, n', v') && j == Plus(i + n, n' + ToInt(v')))
                   || (v % 8 == 5 && j == i + n + 4)
  {
    VarintOrNone(msg, i);
    n, v, n', v' := 0, 0, 0, 0;
    var t := Uvarint(msg[i..], 0);
    if t.Value? {
      n, v := t.n, t.v;
      assert IsEncoded(msg[i..], n, 0);
      VarintOrNone(msg, i + n);
      var w := Uvarint(msg[i + n..], 0);
      if w.Value? {
        n', v' := w.n, w.v;
      }
      assert v % 8 == 0 && v / 8 == 1 ==> v == 8;
    }
  }

  lemma Assoc(a: seq<byte>, b: seq<byte>, c: seq<byte>)
    ensures a + b + c == a + (b + c)
  {
  }

  /** One round over one well-formed field: its status if it is the one, else on to the next field. */
  lemma RoundOverField(pre: seq<byte>, f: Field, rest: seq<byte>)
    requires WellFormed(f) && |pre| + |Wire(f)| < TWO32
    ensures var msg := pre + (Wire(f) + rest);
            && |pre| < |msg|
            && Round(msg, |pre|) ==
               if f.VarintField? && Number(f) == 1 then Return(Status(ToInt(VarintOf(f.value))))
               else Goto(|pre| + |Wire(f)|)
  {
    match f
    case VarintField(tag, value) =>
      Assoc(tag, value, rest);
      RoundOverVarint(pre, tag, value, rest);
    case LengthField(tag, len, bytes) =>
      Assoc(tag, len + bytes, rest);
      Assoc(len, bytes, rest);
      RoundOverBytes(pre, tag, len, bytes, rest);
    case Fixed64Field(tag, bytes) =>
      Assoc(tag, bytes, rest);
      RoundOverFixed(pre, f, rest);
    case Fixed32Field(tag, bytes) =>
      Assoc(tag, bytes, rest);
      RoundOverFixed(pre, f, rest);
  }

  lemma {:induction false} ParseFields(pre: seq<byte>, fs: seq<Field>, seen: set<int>)
    requires (forall f :: f in fs ==> WellFormed(f)) && |pre + WireAll(fs)| < TWO32
    requires forall j :: j in seen ==> j < |pre|
    ensures ParseFrom(pre + WireAll(fs), |pre|, seen) == Status(FirstStatus(fs))
    decreases |fs|
  {
    if fs != [] {
      var f, rest := fs[0], WireAll(fs[1..]);
      RoundOverField(pre, f, rest);
      if !(f.VarintField? && Number(f) == 1) {
        assert pre + (Wire(f) + rest) == (pre + Wire(f)) + rest;
        ParseFields(pre + Wire(f), fs[1..], seen + {|pre|});
      }
    }
  }

  /** For every sequence of well-formed fields in one frame short of 4 GiB, whatever follows the frame, the
      parser terminates with the first field-1 varint, or 0 without one. */
  lemma ParsesEveryMessage(flag: byte, fs: seq<Field>, trailing: seq<byte>)
    requires (forall f :: f in fs ==> WellFormed(f)) && |WireAll(fs)| + 5 < TWO32
    ensures var msg := WireAll(fs);
            var frame := [flag] + PutBigEndian32(|msg|) + msg + trailing;
            && |frame| >= 5 + BigEndian32(frame[1..5]) && 5 + BigEndian32(frame[1..5]) < TWO32
            && ParseFrom(Message(frame), 0, {}) == Status(FirstStatus(fs))
  {
    var msg := WireAll(fs);
    var frame := [flag] + PutBigEndian32(|msg|) + msg + trailing;
    assert frame[1..5] == PutBigEndian32(|msg|);
    BigEndianRoundTrip(|msg|);
    assert Message(frame) == msg;
    assert [] + msg == msg;
    ParseFields([], fs, {});
  }

  /** Past the length at index `i`, if there is one, the index is neither behind where it was nor beyond
      what int holds. */
  predicate LengthFits(msg: seq<byte>, i: nat)
    requires i < |msg|
  {
    var t := Uvarint(msg[i..], 0);
    t.Value? && t.v % 8 == 2 ==>
      var l := Uvarint(msg[i + t.n..], 0);
      l.Value? ==> 0 < t.n + l.n + ToInt(l.v) && i + t.n + l.n + ToInt(l.v) < TWO63
  }

  /** A round that goes on does so at a later index exactly when it is not over an oversized length. */
  lemma RoundAdvancesIff(msg: seq<byte>, i: nat)
    requires i < |msg| < TWO32 && Round(msg, i).Goto?
    ensures Round(msg, i).i > i <==> LengthFits(msg, i)
  {
    var t := Uvarint(msg[i..], 0);
    if t.v % 8 == 2 {
      var l := Uvarint(msg[i + t.n..], 0);
      UvarintFits(msg[i + t.n..], 0);
      LimitIsTwo64();
    }
  }

  /** So does every length the loop comes to from index `i`. */
  predicate LengthsFit(msg: seq<byte>, i: nat)
    requires |msg| < TWO32
    decreases |msg| - i
  {
    i < |msg| && Round(msg, i).Goto? ==>
      LengthFits(msg, i) && (RoundAdvancesIff(msg, i); LengthsFit(msg, Round(msg, i).i))
  }

  /** The parser terminates, and without a panic, on every message, well formed or not, all of whose lengths
      fit. */
  lemma {:induction false} TerminatesIfLengthsFit(msg: seq<byte>, i: nat, seen: set<int>)
    requires |msg| < TWO32 && LengthsFit(msg, i) && forall j :: j in seen ==> j < i
    ensures !ParseFrom(msg, i, seen).Panics? && !ParseFrom(msg, i, seen).Endless?
    decreases |msg| - i
  {
    if i < |msg| && Round(msg, i).Goto? {
      RoundAdvancesIff(msg, i);
      TerminatesIfLengthsFit(msg, Round(msg, i).i, seen + {i});
    }
  }

  /** A length that could be read at index `i` is below 2^62. */
  predicate SmallLength(msg: seq<byte>, i: nat)
    requires i < |msg|
  {
    var t := Uvarint(msg[i..], 0);
    t.Value? && t.v % 8 == 2 ==>
      var l := Uvarint(msg[i + t.n..], 0);
      l.Value? ==> l.v < 0x4000_0000_0000_0000
  }

  lemma {:induction false} SmallLengthsFit(msg: seq<byte>, i: nat)
    requires |msg| < TWO32 && forall j: nat :: j < |msg| ==> SmallLength(msg, j)
    ensures LengthsFit(msg, i)
    decreases |msg| - i
  {
    if i < |msg| && Round(msg, i).Goto? {
      assert SmallLength(msg, i);
      RoundAdvancesIff(msg, i);
      SmallLengthsFit(msg, Round(msg, i).i);
    }
  }

  /** In particular on every message without a length of 2^62 or more. */
  lemma TerminatesIfLengthsAreSmall(msg: seq<byte>)
    requires |msg| < TWO32 && forall j: nat :: j < |msg| ==> SmallLength(msg, j)
    ensures !ParseFrom(msg, 0, {}).Panics? && !ParseFrom(msg, 0, {}).Endless?
  {
    SmallLengthsFit(msg, 0);
    TerminatesIfLengthsFit(msg, 0, {});
  }

  /** It does not in general: on this message, an unknown field with a length of 2^64 - 11, it goes round at
      index 0 forever. */
  lemma OversizedLengthNeverEnds()
    ensures var msg := [0x12] + PutUvarint(TWO64 - 11);
            ParseFrom(msg, 0, {}).Endless? && forall n: nat :: Within(msg, 0, n).None?
  {
    var v := TWO64 - 11;
    var msg := [0x12] + PutUvarint(v);
    LimitIsTwo64();
    VarintRoundTrip(v, 0, []);
    assert PutUvarint(v) + [] == PutUvarint(v);
    TenBytes();
    TagAt([], [0x12], PutUvarint(v));
    assert [] + msg == msg;
    assert Round(msg, 0) == Goto(0);
    assert ParseFrom(msg, 0, {0}).Endless?;
    var rounds := ParseFromIsTheLoop(msg, 0, {});
  }

  lemma TenBytes()
    ensures |PutUvarint(TWO64 - 11)| == 10
  {
    assert |PutUvarint(0xFF)| == 2;
    assert |PutUvarint(0x7FFF)| == 3;
    assert |PutUvarint(0x3F_FFFF)| == 4;
    assert |PutUvarint(0x1FFF_FFFF)| == 5;
    assert |PutUvarint(0xF_FFFF_FFFF)| == 6;
    assert |PutUvarint(0x7FF_FFFF_FFFF)| == 7;
    assert |PutUvarint(0x3_FFFF_FFFF_FFFF)| == 8;
    assert |PutUvarint(0x1FF_FFFF_FFFF_FFFF)| == 9;
  }

  // ---- the request ----

  /** HealthCheckRequest{ string service = 1 } */
  function RequestMessage(service: seq<byte>): seq<byte> {
    if service == [] then [] else [0x0A] + PutUvarint(|service|) + service
  }

  /** The frame probeGRPCService posts. */
  function RequestFrame(service: seq<byte>): seq<byte>
    requires |RequestMessage(service)| < TWO32
  {
    [0] + PutBigEndian32(|RequestMessage(service)|) + RequestMessage(service)
  }

  /** A server reads the frame as one uncompressed message, and all of it. */
  lemma RequestIsOneFrame(service: seq<byte>)
    requires |RequestMessage(service)| < TWO32
    ensures var frame := RequestFrame(service);
            && frame[0] == 0 && |frame| == 5 + BigEndian32(frame[1..5])
            && Message(frame) == RequestMessage(service)
  {
    var frame, msg := RequestFrame(service), RequestMessage(service);
    assert frame[1..5] == PutBigEndian32(|msg|);
    BigEndianRoundTrip(|msg|);
  }

  lemma OneField(f: Field)
    requires f.LengthField?
    ensures WireAll([f]) == f.tag + f.len + f.bytes
  {
    assert WireAll([f]) == Wire(f) + WireAll([]);
  }

  lemma VarintAlone(v: nat)
    requires v < TWO64
    ensures IsVarint(PutUvarint(v)) && VarintOf(PutUvarint(v)) == v
  {
    LimitIsTwo64();
    VarintRoundTrip(v, 0, []);
    assert PutUvarint(v) + [] == PutUvarint(v);
  }

  lemma ServiceField(tag: seq<byte>, len: seq<byte>, service: seq<byte>)
    requires Uvarint(tag, 0) == Value(10, 1) && |tag| == 1
    requires IsVarint(len) && VarintOf(len) == |service|
    ensures var f := LengthField(tag, len, service); WellFormed(f) && Number(f) == 1
  {
  }

  /** In that message it finds the service name as field 1, or nothing at all for the empty name,
      which is that field's default. */
  lemma RequestCarriesTheService(service: seq<byte>)
    requires |service| < TWO64
    ensures service == [] ==> RequestMessage(service) == WireAll([])
    ensures service != [] ==>
              var f := LengthField([0x0A], PutUvarint(|service|), service);
              WellFormed(f) && Number(f) == 1 && RequestMessage(service) == WireAll([f])
  {
    if service != [] {
      var tag: seq<byte>, len := [0x0A], PutUvarint(|service|);
      assert Uvarint(tag, 0) == Value(10, 1);
      VarintAlone(|service|);
      ServiceField(tag, len, service);
      OneField(LengthField(tag, len, service));
    }
  }
}
