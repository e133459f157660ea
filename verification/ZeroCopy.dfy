/** The zero-copy codec: values, their encodings, and what a reader makes of any bytes. */
module ZeroCopy {
  import opened Transactions

  type Byte = b: nat | b < 0x100

  const MAX_INT: nat := 0x7FFF_FFFF_FFFF_FFFF

  function Pow256(k: nat): (p: nat)
    ensures p > 0
  {
    if k == 0 then 1 else 0x100 * Pow256(k - 1)
  }

  lemma PowValues()
    ensures Pow256(1) == 0x100 && Pow256(2) == 0x1_0000 && Pow256(4) == 0x1_0000_0000 && Pow256(8) == MAX_UINT64 + 1
  {
    assert Pow256(3) == 0x100_0000;
    assert Pow256(5) == 0x100_0000_0000 && Pow256(6) == 0x1_0000_0000_0000 && Pow256(7) == 0x100_0000_0000_0000;
  }

  /** The k low bytes of v, least significant first. */
  function LittleEndian(k: nat, v: nat): (s: seq<Byte>)
    ensures |s| == k
  {
    if k == 0 then [] else [v % 0x100] + LittleEndian(k - 1, v / 0x100)
  }

  function FromLittleEndian(s: seq<Byte>): nat {
    if s == [] then 0 else s[0] + 0x100 * FromLittleEndian(s[1..])
  }

  lemma {:induction false} LittleEndianBack(k: nat, v: nat)
    requires v < Pow256(k)
    ensures FromLittleEndian(LittleEndian(k, v)) == v
  {
    if k > 0 {
      LittleEndianBack(k - 1, v / 0x100);
      assert LittleEndian(k, v)[1..] == LittleEndian(k - 1, v / 0x100);
    }
  }

  lemma {:induction false} FromLittleEndianBound(s: seq<Byte>)
    ensures FromLittleEndian(s) < Pow256(|s|)
  {
    if s != [] {
      FromLittleEndianBound(s[1..]);
    }
  }

  /** Byte i has the weight 256 to the power i. */
  lemma {:induction false} LittleEndianByte(k: nat, v: nat, i: nat)
    requires i < k
    ensures LittleEndian(k, v)[i] == v / Pow256(i) % 0x100
  {
    if i > 0 {
      LittleEndianByte(k - 1, v / 0x100, i - 1);
      DivTwice(v, Pow256(i - 1));
    }
  }

  lemma DivTwice(v: nat, b: nat)
    requires b > 0
    ensures v / 0x100 / b == v / (0x100 * b)
  {
    var q := v / 0x100;
    var k := q / b;
    var t := b * k;
    assert t <= q < t + b by {
      assert q == b * k + q % b;
    }
    assert k * (0x100 * b) == 0x100 * t;
    DivUnique(v, 0x100 * b, k, v - 0x100 * t);
  }

  lemma DivUnique(v: nat, d: nat, q: nat, r: nat)
    requires v == q * d + r && r < d
    ensures v / d == q
  {
    SameQuotient(d, q, r, v / d, v % d);
  }

  lemma SameQuotient(d: nat, q: nat, r: nat, e: nat, s: nat)
    requires q * d + r == e * d + s && r < d && s < d
    ensures q == e
  {
    if q < e {
      MultipleApart(q, e, d);
    } else if e < q {
      MultipleApart(e, q, d);
    }
  }

  lemma MultipleApart(a: nat, b: nat, d: nat)
    requires a < b
    ensures a * d + d <= b * d
  {
    var n: nat := b - a - 1;
    assert b * d == (a + 1 + n) * d == a * d + d + n * d;
    assert n * d >= 0;
  }

  /** Two's complement of a k-byte signed value. */
  function ToUnsigned(k: nat, x: int): int {
    if x >= 0 then x else x + Pow256(k)
  }

  function ToSigned(k: nat, v: nat): int {
    if 2 * v < Pow256(k) then v else v - Pow256(k)
  }

  ghost predicate FitsSigned(k: nat, x: int) {
    0 - Pow256(k) <= 2 * x < Pow256(k)
  }

  function VarUint(v: nat): (s: seq<Byte>)
    requires v <= MAX_UINT64
  {
    if v < 0xFD then [v]
    else if v <= 0xFFFF then [0xFD] + LittleEndian(2, v)
    else if v <= 0xFFFF_FFFF then [0xFE] + LittleEndian(4, v)
    else [0xFF] + LittleEndian(8, v)
  }

  /** The format in bytes: one byte below 0xFD, or a marker and two, four or eight bytes. */
  lemma VarUintFormat(v: nat)
    requires v <= MAX_UINT64
    ensures var s := VarUint(v);
            && |s| == (if v < 0xFD then 1 else if v <= 0xFFFF then 3 else if v <= 0xFFFF_FFFF then 5 else 9)
            && s[0] == (if v < 0xFD then v else if v <= 0xFFFF then 0xFD else if v <= 0xFFFF_FFFF then 0xFE else 0xFF)
            && forall i :: 1 <= i < |s| ==> s[i] == v / Pow256(i - 1) % 0x100
  {
    hide LittleEndian, Pow256;
    var s := VarUint(v);
    forall i | 1 <= i < |s| ensures s[i] == v / Pow256(i - 1) % 0x100 {
      LittleEndianByte(|s| - 1, v, i - 1);
    }
  }

  /** What can be written and read back. */
  datatype Item =
    | Bool(b: bool)
    | Unsigned(width: nat, v: nat)
    | Signed(width: nat, x: int)
    | Variable(v: nat)
    | VarBytes(bytes: seq<Byte>)
    | Fixed(bytes: seq<Byte>)

  /** The values each writer accepts: one byte or 16, 32, 64 bits, and byte strings of a length
      an int can hold. */
  ghost predicate Writable(item: Item) {
    match item
    case Bool(_) => true
    case Unsigned(width, v) => width in {1, 2, 4, 8} && v < Pow256(width)
    case Signed(width, x) => width in {2, 4, 8} && FitsSigned(width, x)
    case Variable(v) => v <= MAX_UINT64
    case VarBytes(bytes) => |bytes| <= MAX_INT
    case Fixed(bytes) => |bytes| <= MAX_INT
  }

  function Encode(item: Item): seq<Byte>
    requires Writable(item)
  {
    match item
    case Bool(b) => [if b then 1 else 0]
    case Unsigned(width, v) => LittleEndian(width, v)
    case Signed(width, x) => LittleEndian(width, ToUnsigned(width, x))
    case Variable(v) => VarUint(v)
    case VarBytes(bytes) => VarUint(|bytes|) + bytes
    case Fixed(bytes) => bytes
  }

  /** The encodings in bytes: 1 for true and 0 for false, integers least significant byte first and
      negative ones modulo their range, byte strings as they are, after their length if it varies. */
  lemma EncodesAs(item: Item)
    requires Writable(item)
    ensures var s := Encode(item);
            match item
            case Bool(b) => s == if b then [1] else [0]
            case Unsigned(width, v) => |s| == width && forall i :: 0 <= i < width ==> s[i] == v / Pow256(i) % 0x100
            case Signed(width, x) =>
              |s| == width && forall i :: 0 <= i < width ==> s[i] == x % Pow256(width) / Pow256(i) % 0x100
            case Variable(v) => s == VarUint(v)
            case VarBytes(bytes) => s == VarUint(|bytes|) + bytes
            case Fixed(bytes) => s == bytes
  {
    hide LittleEndian, Pow256;
    match item {
      case Unsigned(width, v) =>
        forall i | 0 <= i < width ensures LittleEndian(width, v)[i] == v / Pow256(i) % 0x100 {
          LittleEndianByte(width, v, i);
        }
      case Signed(width, x) =>
        SignedBytes(width, x);
      case _ =>
    }
  }

  lemma SignedBytes(width: nat, x: int)
    requires FitsSigned(width, x)
    ensures ToUnsigned(width, x) >= 0
    ensures forall i :: 0 <= i < width ==>
                          LittleEndian(width, ToUnsigned(width, x))[i] == x % Pow256(width) / Pow256(i) % 0x100
  {
    hide LittleEndian, Pow256;
    Remainder(x, Pow256(width));
    forall i | 0 <= i < width
      ensures LittleEndian(width, ToUnsigned(width, x))[i] == x % Pow256(width) / Pow256(i) % 0x100
    {
      LittleEndianByte(width, ToUnsigned(width, x), i);
    }
  }

  lemma Remainder(x: int, p: nat)
    requires p > 0 && 0 - p <= x < p
    ensures x % p == if x >= 0 then x else x + p
  {
    if x >= 0 {
      SmallRemainder(x, p);
    } else {
      SmallRemainder(x + p, p);
      assert x % p == (x + p) % p;
    }
  }

  lemma SmallRemainder(x: nat, p: nat)
    requires x < p
    ensures x % p == x
  {
  }

  /** What the reader is asked for. */
  datatype Kind =
    | BoolKind
    | UnsignedKind(width: nat)
    | SignedKind(width: nat)
    | VariableKind
    | VarBytesKind
    | FixedKind(length: nat)

  function KindOf(item: Item): Kind {
    match item
    case Bool(_) => BoolKind
    case Unsigned(width, _) => UnsignedKind(width)
    case Signed(width, _) => SignedKind(width)
    case Variable(_) => VariableKind
    case VarBytes(_) => VarBytesKind
    case Fixed(bytes) => FixedKind(|bytes|)
  }

  /** The result of a read: a value, or the end of the input; and the new offset. */
  datatype ReadResult<+T> = Got(value: T, off: nat) | Eof(off: nat)

  function TakeBytes(s: seq<Byte>, off: nat, n: nat): (r: ReadResult<seq<Byte>>)
    requires off <= |s|
    ensures off <= r.off <= |s|
  {
    if off + n <= |s| then Got(s[off..off + n], off + n) else Eof(|s|)
  }

  function TakeUnsigned(s: seq<Byte>, off: nat, width: nat): (r: ReadResult<nat>)
    requires off <= |s|
    ensures off <= r.off <= |s|
  {
    var b := TakeBytes(s, off, width);
    if b.Got? then Got(FromLittleEndian(b.value), b.off) else Eof(b.off)
  }

  function TakeVarUint(s: seq<Byte>, off: nat): (r: ReadResult<nat>)
    requires off <= |s|
    ensures off <= r.off <= |s|
  {
    if off == |s| then Eof(off)
    else if s[off] == 0xFD then TakeUnsigned(s, off + 1, 2)
    else if s[off] == 0xFE then TakeUnsigned(s, off + 1, 4)
    else if s[off] == 0xFF then TakeUnsigned(s, off + 1, 8)
    else Got(s[off], off + 1)
  }

  /** Reading one item at an offset, whatever the bytes are: the offset never passes the end. */
  function Parse(kind: Kind, s: seq<Byte>, off: nat): (r: ReadResult<Item>)
    requires off <= |s|
    ensures off <= r.off <= |s|
  {
    match kind
    case BoolKind =>
      if off == |s| then Eof(off)
      else if s[off] <= 1 then Got(Bool(s[off] == 1), off + 1)
      else Eof(off + 1)
    case UnsignedKind(width) =>
      var u := TakeUnsigned(s, off, width);
      if u.Got? then Got(Unsigned(width, u.value), u.off) else Eof(u.off)
    case SignedKind(width) =>
      var u := TakeUnsigned(s, off, width);
      if u.Got? then Got(Signed(width, ToSigned(width, u.value)), u.off) else Eof(u.off)
    case VariableKind =>
      var u := TakeVarUint(s, off);
      if u.Got? then Got(Variable(u.value), u.off) else Eof(u.off)
    case VarBytesKind =>
      var u := TakeVarUint(s, off);
      if u.Eof? then Eof(u.off)
      else
        var b := TakeBytes(s, u.off, u.value);
        if b.Got? then Got(VarBytes(b.value), b.off) else Eof(b.off)
    case FixedKind(length) =>
      var b := TakeBytes(s, off, length);
      if b.Got? then Got(Fixed(b.value), b.off) else Eof(b.off)
  }

  /** The bytes at an offset. */
  ghost predicate HasAt(s: seq<Byte>, off: nat, part: seq<Byte>) {
    off + |part| <= |s| && s[off..off + |part|] == part
  }

  lemma UnsignedBack(s: seq<Byte>, off: nat, width: nat, v: nat)
    requires HasAt(s, off, LittleEndian(width, v)) && v < Pow256(width)
    ensures TakeUnsigned(s, off, width) == Got(v, off + width)
  {
    LittleEndianBack(width, v);
  }

  lemma VarUintBack(s: seq<Byte>, off: nat, v: nat)
    requires v <= MAX_UINT64 && HasAt(s, off, VarUint(v))
    ensures TakeVarUint(s, off) == Got(v, off + |VarUint(v)|)
  {
    hide LittleEndian, FromLittleEndian, Pow256, TakeUnsigned;
    PowValues();
    var e := VarUint(v);
    assert s[off] == s[off..off + |e|][0] == e[0];
    if v >= 0xFD {
      var width := if v <= 0xFFFF then 2 else if v <= 0xFFFF_FFFF then 4 else 8;
      assert e[1..] == LittleEndian(width, v);
      assert s[off + 1..off + 1 + width] == s[off..off + |e|][1..];
      UnsignedBack(s, off + 1, width, v);
    }
  }

  /** Reading undoes writing, wherever the encoding lies. */
  lemma ParseBack(item: Item, s: seq<Byte>, off: nat)
    requires Writable(item) && HasAt(s, off, Encode(item))
    ensures Parse(KindOf(item), s, off) == Got(item, off + |Encode(item)|)
  {
    hide LittleEndian, FromLittleEndian, Pow256, TakeUnsigned, TakeVarUint, VarUint;
    match item
    case Bool(b) =>
      assert s[off] == s[off..off + 1][0];
    case Unsigned(width, v) =>
      UnsignedBack(s, off, width, v);
    case Signed(width, x) =>
      UnsignedBack(s, off, width, ToUnsigned(width, x));
    case Variable(v) =>
      VarUintBack(s, off, v);
    case VarBytes(bytes) =>
      VarBytesBack(s, off, bytes);
    case Fixed(bytes) =>
  }

  lemma VarBytesBack(s: seq<Byte>, off: nat, bytes: seq<Byte>)
    requires |bytes| <= MAX_INT && HasAt(s, off, VarUint(|bytes|) + bytes)
    ensures Parse(VarBytesKind, s, off) == Got(VarBytes(bytes), off + |VarUint(|bytes|) + bytes|)
  {
    hide LittleEndian, FromLittleEndian, Pow256, TakeUnsigned, TakeVarUint, VarUint;
    var prefix := VarUint(|bytes|);
    var e := prefix + bytes;
    assert s[off..off + |prefix|] == s[off..off + |e|][..|prefix|] == prefix;
    VarUintBack(s, off, |bytes|);
    assert s[off + |prefix|..off + |e|] == s[off..off + |e|][|prefix|..] == bytes;
  }

  // --- Scripts ---

  ghost predicate AllWritable(items: seq<Item>) {
    forall i :: 0 <= i < |items| ==> Writable(items[i])
  }

  function EncodeAll(items: seq<Item>): seq<Byte>
    requires AllWritable(items)
  {
    if items == [] then [] else EncodeAll(items[..|items| - 1]) + Encode(items[|items| - 1])
  }

  /** Reads items of the kinds of a script, one after the other. */
  function ParseAll(items: seq<Item>, s: seq<Byte>): (r: ReadResult<seq<Item>>)
    ensures r.off <= |s|
  {
    if items == [] then Got([], 0)
    else
      var front := ParseAll(items[..|items| - 1], s);
      if front.Eof? then front
      else
        var last := Parse(KindOf(items[|items| - 1]), s, front.off);
        if last.Got? then Got(front.value + [last.value], last.off) else Eof(last.off)
  }

  lemma EncodeLast(items: seq<Item>, rest: seq<Byte>)
    requires AllWritable(items) && items != []
    ensures var front, last := items[..|items| - 1], items[|items| - 1];
            var s := EncodeAll(items) + rest;
            && AllWritable(front) && Writable(last) && EncodeAll(items) == EncodeAll(front) + Encode(last)
            && s == EncodeAll(front) + (Encode(last) + rest) && HasAt(s, |EncodeAll(front)|, Encode(last))
  {
    hide Encode, Parse, Writable;
  }

  /** The round trip: from the bytes of a script, possibly followed by more, the same kinds of
      reads give back the script and stop at its end. */
  lemma {:induction false} RoundTrip(items: seq<Item>, rest: seq<Byte>)
    requires AllWritable(items)
    ensures ParseAll(items, EncodeAll(items) + rest) == Got(items, |EncodeAll(items)|)
  {
    hide Encode, Parse, Writable;
    if items != [] {
      var front, last := items[..|items| - 1], items[|items| - 1];
      var s := EncodeAll(items) + rest;
      EncodeLast(items, rest);
      hide EncodeAll, HasAt;
      RoundTrip(front, Encode(last) + rest);
      ParseBack(last, s, |EncodeAll(front)|);
      assert front + [last] == items;
    }
  }
}
