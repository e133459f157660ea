/** The codec's two ends: a sink that writes into a buffer it grows, and a source that reads
    bytes by moving an offset. */
module ZeroCopyBuffers {
  import opened Transactions
  import opened ZeroCopy

  const INITIAL_CAPACITY := 512

  /** What a variable-length integer reserves before it is written. */
  const RESERVED := 9

  /** The capacity once n more bytes have been made room for in a buffer of capacity c with l bytes
      in use; nothing when an int cannot hold the new size. */
  function GrowTo(c: nat, l: nat, n: nat): Option<nat>
    requires l <= c
  {
    if n <= c - l then Some(c) else if 2 * c + n <= MAX_INT then Some(2 * c + n) else None
  }

  /** The capacity after writing one item, if there is room for it.  A byte string first reserves the
      room of its length prefix. */
  ghost function CapAfter(c: nat, l: nat, item: Item): Option<nat>
    requires l <= c && Writable(item)
  {
    match item
    case Bool(_) => GrowTo(c, l, 1)
    case Unsigned(width, _) => GrowTo(c, l, width)
    case Signed(width, _) => GrowTo(c, l, width)
    case Variable(_) => GrowTo(c, l, RESERVED)
    case Fixed(bytes) => GrowTo(c, l, |bytes|)
    case VarBytes(bytes) =>
      var c' := GrowTo(c, l, RESERVED);
      if c'.None? then None else GrowTo(c'.value, l + |VarUint(|bytes|)|, |bytes|)
  }

  /** What re-slicing by a count that turned negative leaves of l bytes. */
  function CutBack(l: nat, n: Uint64): (r: nat)
    ensures r <= l
  {
    if MAX_UINT64 + 1 - n <= l then l - (MAX_UINT64 + 1 - n) else l
  }

  /** The sink: `buf` is the allocated array (its length is the capacity), of which the first
      `len` bytes are in use.  `ok == false` stands for the ErrTooLarge panic. */
  class Sink {
    var buf: array<Byte>
    var len: nat

    ghost predicate Valid()
      reads this
    {
      len <= buf.Length <= MAX_INT
    }

    ghost function Contents(): seq<Byte>
      requires Valid()
      reads this, buf
    {
      buf[..len]
    }

    constructor ()
      ensures Valid() && fresh(buf) && Contents() == [] && buf.Length == INITIAL_CAPACITY
    {
      buf, len := new Byte[INITIAL_CAPACITY](_ => 0), 0;
    }

    method TryGrowByReslice(n: nat) returns (m: nat, ok: bool)
      requires Valid()
      modifies this`len
      ensures Valid() && (ok <==> n <= buf.Length - old(len))
      ensures ok ==> m == old(len) && len == old(len) + n
      ensures !ok ==> len == old(len)
    {
      if n <= buf.Length - len {
        m, ok, len := len, true, len + n;
      } else {
        m, ok := 0, false;
      }
    }

    /** Makes room for n more bytes, by reallocating when the capacity is short.  Fails exactly
        when twice the capacity plus n is more than an int can hold. */
    method Grow(n: nat) returns (m: nat, ok: bool)
      requires Valid()
      modifies this
      ensures Valid() && (ok <==> GrowTo(old(buf.Length), old(len), n).Some?)
      ensures ok ==> m == old(len) && len == old(len) + n && buf[..m] == old(Contents())
      ensures ok ==> GrowTo(old(buf.Length), old(len), n) == Some(buf.Length)
      ensures buf == old(buf) || fresh(buf)
      ensures !ok ==> len == old(len) && buf == old(buf)
    {
      m, ok := TryGrowByReslice(n);
      if ok {
        return;
      }
      var l, c := len, buf.Length;
      if c > MAX_INT - c - n {
        return 0, false;
      }
      var bigger := new Byte[2 * c + n](_ => 0);
      for i := 0 to l
        invariant buf == old(buf) && len == l && bigger[..i] == buf[..i]
      {
        bigger[i] := buf[i];
      }
      buf, len := bigger, l + n;
      m, ok := l, true;
    }

    /** Extends the contents by n bytes of unspecified value, starting at m.  A count above the
        largest int turns negative: the buffer is cut back by its complement, or left alone when
        it is shorter than that, and the call panics. */
    method NextBytes(n: Uint64) returns (m: nat, ok: bool)
      requires Valid()
      modifies this
      ensures Valid() && (ok <==> n <= MAX_INT && GrowTo(old(buf.Length), old(len), n).Some?)
      ensures ok ==> m == old(len) && len == old(len) + n && buf[..m] == old(Contents())
      ensures ok ==> GrowTo(old(buf.Length), old(len), n) == Some(buf.Length)
      ensures buf == old(buf) || fresh(buf)
      ensures !ok ==> buf == old(buf)
      ensures !ok ==> len == if n <= MAX_INT then old(len) else CutBack(old(len), n)
    {
      if n > MAX_INT {
        len := CutBack(len, n);
        return 0, false;
      }
      m, ok := TryGrowByReslice(n);
      if !ok {
        m, ok := Grow(n);
      }
    }

    /** Gives back the last n bytes. */
    method BackUp(n: nat)
      requires Valid() && n <= len
      modifies this`len
      ensures Valid() && len == old(len) - n && Contents() == old(Contents())[..len]
    {
      len := len - n;
    }

    /** Copies bytes into the buffer at m. */
    method Put(m: nat, p: seq<Byte>)
      requires Valid() && m + |p| <= len
      modifies buf
      ensures buf[..m] == old(buf[..m]) && buf[m..m + |p|] == p && buf[m + |p|..] == old(buf[m + |p|..])
    {
      for i := 0 to |p|
        invariant buf[..m] == old(buf[..m]) && buf[m..m + i] == p[..i]
        invariant buf[m + i..] == old(buf[m + i..])
      {
        buf[m + i] := p[i];
      }
    }

    /** Appends bytes. */
    method WriteBytes(p: seq<Byte>) returns (ok: bool)
      requires Valid() && |p| <= MAX_INT
      modifies this, buf
      ensures Valid() && (buf == old(buf) || fresh(buf))
      ensures ok <==> GrowTo(old(buf.Length), old(len), |p|).Some?
      ensures ok ==> GrowTo(old(buf.Length), old(len), |p|) == Some(buf.Length)
      ensures ok ==> Contents() == old(Contents()) + p
      ensures !ok ==> Contents() == old(Contents())
    {
      var m;
      m, ok := NextBytes(|p|);
      if ok {
        Put(m, p);
        assert buf[..len] == buf[..m] + buf[m..m + |p|];
      }
    }

    /** A fixed-width value, least significant byte first. */
    method WriteUnsigned(width: nat, v: nat) returns (ok: bool)
      requires Valid() && width <= 8
      modifies this, buf
      ensures Valid() && (buf == old(buf) || fresh(buf))
      ensures ok <==> GrowTo(old(buf.Length), old(len), width).Some?
      ensures ok ==> GrowTo(old(buf.Length), old(len), width) == Some(buf.Length)
      ensures ok ==> Contents() == old(Contents()) + LittleEndian(width, v)
      ensures !ok ==> Contents() == old(Contents())
    {
      hide LittleEndian;
      var m;
      m, ok := NextBytes(width);
      if ok {
        Put(m, LittleEndian(width, v));
        assert buf[..len] == buf[..m] + buf[m..m + width];
      }
    }

    method PutTagged(m: nat, tag: Byte, width: nat, v: nat)
      requires Valid() && m + 1 + width <= len
      modifies buf
      ensures buf[..m + 1 + width] == old(buf[..m]) + ([tag] + LittleEndian(width, v))
    {
      hide LittleEndian;
      Put(m, [tag]);
      assert buf[..m + 1] == buf[..m] + buf[m..m + 1];
      Put(m + 1, LittleEndian(width, v));
      assert buf[..m + 1 + width] == buf[..m + 1] + buf[m + 1..m + 1 + width];
    }

    /** Reserves nine bytes, writes as many as the value needs and gives the others back. */
    method WriteVarUint(v: nat) returns (size: nat, ok: bool)
      requires Valid() && v <= MAX_UINT64
      modifies this, buf
      ensures Valid() && (buf == old(buf) || fresh(buf))
      ensures ok <==> GrowTo(old(buf.Length), old(len), RESERVED).Some?
      ensures ok ==> GrowTo(old(buf.Length), old(len), RESERVED) == Some(buf.Length)
      ensures ok ==> Contents() == old(Contents()) + VarUint(v) && size == |VarUint(v)|
      ensures ok ==>
                && size == (if v < 0xFD then 1 else if v <= 0xFFFF then 3 else if v <= 0xFFFF_FFFF then 5 else 9)
                && len == old(len) + size
                && Contents()[old(len)] == (if v < 0xFD then v else if v <= 0xFFFF then 0xFD
                                            else if v <= 0xFFFF_FFFF then 0xFE else 0xFF)
      ensures !ok ==> Contents() == old(Contents())
    {
      hide LittleEndian;
      VarUintFormat(v);
      var m;
      m, ok := NextBytes(RESERVED);
      size := 0;
      if !ok {
        return;
      }
      if v < 0xFD {
        Put(m, [v]);
        size := 1;
        assert buf[..m + 1] == buf[..m] + buf[m..m + 1];
      } else if v <= 0xFFFF {
        PutTagged(m, 0xFD, 2, v);
        size := 3;
      } else if v <= 0xFFFF_FFFF {
        PutTagged(m, 0xFE, 4, v);
        size := 5;
      } else {
        PutTagged(m, 0xFF, 8, v);
        size := 9;
      }
      assert buf[..m + size] == old(Contents()) + VarUint(v);
      BackUp(RESERVED - size);
    }

    method WriteVarBytes(data: seq<Byte>) returns (size: nat, ok: bool)
      requires Valid() && |data| <= MAX_INT
      modifies this, buf
      ensures Valid() && (buf == old(buf) || fresh(buf))
      ensures ok <==> CapAfter(old(buf.Length), old(len), VarBytes(data)).Some?
      ensures ok ==> CapAfter(old(buf.Length), old(len), VarBytes(data)) == Some(buf.Length)
      ensures ok ==> Contents() == old(Contents()) + Encode(VarBytes(data)) && size == |Encode(VarBytes(data))|
      ensures !ok ==> exists part :: part <= Encode(VarBytes(data)) && Contents() == old(Contents()) + part
    {
      hide VarUint;
      size, ok := WriteVarUint(|data|);
      if ok {
        size := size + |data|;
        ok := WriteBytes(data);
        assert old(Contents()) + VarUint(|data|) + data == old(Contents()) + (VarUint(|data|) + data);
        assert VarUint(|data|) <= Encode(VarBytes(data));
      } else {
        assert [] <= Encode(VarBytes(data)) && Contents() == old(Contents()) + [];
      }
    }

    method Write(item: Item) returns (ok: bool)
      requires Valid() && Writable(item)
      modifies this, buf
      ensures Valid() && (buf == old(buf) || fresh(buf))
      ensures ok <==> CapAfter(old(buf.Length), old(len), item).Some?
      ensures ok ==> CapAfter(old(buf.Length), old(len), item) == Some(buf.Length)
      ensures ok ==> Contents() == old(Contents()) + Encode(item)
    {
      hide VarUint, LittleEndian, Pow256;
      match item
      case Bool(b) =>
        ok := WriteBytes([if b then 1 else 0]);
      case Unsigned(width, v) =>
        ok := WriteUnsigned(width, v);
      case Signed(width, x) =>
        ok := WriteUnsigned(width, ToUnsigned(width, x));
      case Variable(v) =>
        var size;
        size, ok := WriteVarUint(v);
      case VarBytes(bytes) =>
        var size;
        size, ok := WriteVarBytes(bytes);
      case Fixed(bytes) =>
        ok := WriteBytes(bytes);
    }
  }

  function SafeAdd(x: nat, y: nat): (nat, bool)
    requires x <= MAX_UINT64 && y <= MAX_UINT64
  {
    ((x + y) % (MAX_UINT64 + 1), y > MAX_UINT64 - x)
  }

  /** The flag says whether the sum wrapped; without it the sum is exact. */
  lemma SafeAddMeans(x: nat, y: nat)
    requires x <= MAX_UINT64 && y <= MAX_UINT64
    ensures SafeAdd(x, y).1 <==> x + y > MAX_UINT64
    ensures !SafeAdd(x, y).1 ==> SafeAdd(x, y).0 == x + y
  {
  }

  /** The source: `off` is the read position. */
  class Source {
    const s: seq<Byte>
    var off: nat

    ghost predicate Valid()
      reads this
    {
      off <= |s| <= MAX_INT
    }

    constructor (s: seq<Byte>)
      requires |s| <= MAX_INT
      ensures Valid() && this.s == s && off == 0
    {
      this.s, off := s, 0;
    }

    /** The next n bytes, or with eof what is left; the offset stays within the bytes. */
    method NextBytes(n: nat) returns (data: seq<Byte>, eof: bool)
      requires Valid() && n <= MAX_UINT64
      modifies this
      ensures Valid() && off == TakeBytes(s, old(off), n).off && data == s[old(off)..off]
      ensures eof <==> TakeBytes(s, old(off), n).Eof?
    {
      SafeAddMeans(off, n);
      var (end, overflow) := SafeAdd(off, n);
      eof := false;
      if overflow || end > |s| {
        end, eof := |s|, true;
      }
      data := s[off..end];
      off := end;
    }

    method Skip(n: nat) returns (eof: bool)
      requires Valid() && n <= MAX_UINT64
      modifies this
      ensures Valid() && off == TakeBytes(s, old(off), n).off && (eof <==> TakeBytes(s, old(off), n).Eof?)
    {
      SafeAddMeans(off, n);
      var (end, overflow) := SafeAdd(off, n);
      eof := false;
      if overflow || end > |s| {
        end, eof := |s|, true;
      }
      off := end;
    }

    method NextByte() returns (data: Byte, eof: bool)
      requires Valid()
      modifies this
      ensures Valid() && (eof <==> old(off) == |s|)
      ensures if eof then data == 0 && off == old(off) else data == s[old(off)] && off == old(off) + 1
    {
      if off >= |s| {
        return 0, true;
      }
      data, eof, off := s[off], false, off + 1;
    }

    method NextBool() returns (data: bool, eof: bool)
      requires Valid()
      modifies this
      ensures Valid() && off == Parse(BoolKind, s, old(off)).off
      ensures Parse(BoolKind, s, old(off)) == if eof then Eof(off) else Got(Bool(data), off)
    {
      var val;
      val, eof := NextByte();
      data := false;
      if val == 0 {
        data := false;
      } else if val == 1 {
        data := true;
      } else {
        eof := true;
      }
    }

    method NextUnsigned(width: nat) returns (data: nat, eof: bool)
      requires Valid() && width <= 8
      modifies this
      ensures Valid() && TakeUnsigned(s, old(off), width) == if eof then Eof(off) else Got(data, off)
    {
      var bytes;
      bytes, eof := NextBytes(width);
      data := if eof then 0 else FromLittleEndian(bytes);
    }

    method NextVarUint() returns (data: nat, eof: bool)
      requires Valid()
      modifies this
      ensures Valid() && TakeVarUint(s, old(off)) == if eof then Eof(off) else Got(data, off)
      ensures data <= MAX_UINT64
    {
      hide FromLittleEndian, Pow256;
      var first;
      first, eof := NextByte();
      data := 0;
      if eof {
        return;
      }
      if first == 0xFD {
        data, eof := NextUnsigned(2);
      } else if first == 0xFE {
        data, eof := NextUnsigned(4);
      } else if first == 0xFF {
        data, eof := NextUnsigned(8);
      } else {
        data := first;
      }
      if eof {
        data := 0;
      } else {
        VarUintFits(s, old(off));
      }
    }

    method NextVarBytes() returns (data: seq<Byte>, eof: bool)
      requires Valid()
      modifies this
      ensures Valid() && Parse(VarBytesKind, s, old(off)) == if eof then Eof(off) else Got(VarBytes(data), off)
    {
      hide TakeVarUint;
      var count;
      count, eof := NextVarUint();
      data := [];
      if eof {
        return;
      }
      data, eof := NextBytes(count);
    }

    /** Reads one item; on any input the outcome is that of Parse. */
    method Read(kind: Kind) returns (r: ReadResult<Item>)
      requires Valid() && Readable(kind)
      modifies this
      ensures Valid() && r == Parse(kind, s, old(off)) && off == r.off
    {
      hide TakeUnsigned, TakeVarUint;
      match kind
      case BoolKind =>
        var b, eof := NextBool();
        r := if eof then Eof(off) else Got(Bool(b), off);
      case UnsignedKind(width) =>
        var v, eof := NextUnsigned(width);
        r := if eof then Eof(off) else Got(Unsigned(width, v), off);
      case SignedKind(width) =>
        var v, eof := NextUnsigned(width);
        r := if eof then Eof(off) else Got(Signed(width, ToSigned(width, v)), off);
      case VariableKind =>
        var v, eof := NextVarUint();
        r := if eof then Eof(off) else Got(Variable(v), off);
      case VarBytesKind =>
        var b, eof := NextVarBytes();
        r := if eof then Eof(off) else Got(VarBytes(b), off);
      case FixedKind(length) =>
        var b, eof := NextBytes(length);
        r := if eof then Eof(off) else Got(Fixed(b), off);
    }
  }

  ghost predicate Readable(kind: Kind) {
    match kind
    case UnsignedKind(width) => width <= 8
    case SignedKind(width) => width <= 8
    case FixedKind(length) => length <= MAX_UINT64
    case _ => true
  }

  lemma VarUintFits(s: seq<Byte>, off: nat)
    requires off <= |s|
    ensures TakeVarUint(s, off).Got? ==> TakeVarUint(s, off).value <= MAX_UINT64
  {
    hide TakeUnsigned, Pow256;
    PowValues();
    if off < |s| {
      UnsignedFits(s, off + 1, 2);
      UnsignedFits(s, off + 1, 4);
      UnsignedFits(s, off + 1, 8);
    }
  }

  lemma UnsignedFits(s: seq<Byte>, off: nat, width: nat)
    requires off <= |s|
    ensures TakeUnsigned(s, off, width).Got? ==> TakeUnsigned(s, off, width).value < Pow256(width)
  {
    hide FromLittleEndian, Pow256;
    if off + width <= |s| {
      FromLittleEndianBound(s[off..off + width]);
    }
  }

  /** If a whole script can be read then so can every prefix of it, item by item. */
  lemma {:induction false} ReadsOn(items: seq<Item>, s: seq<Byte>, i: nat)
    requires i < |items| && ParseAll(items, s).Got?
    ensures ParseAll(items[..i + 1], s).Got?
  {
    hide Parse;
    if i + 1 < |items| {
      var front := items[..|items| - 1];
      ReadsOn(front, s, i);
      assert front[..i + 1] == items[..i + 1];
    } else {
      assert items[..i + 1] == items;
    }
  }

  lemma WritableReadable(item: Item)
    requires Writable(item)
    ensures Readable(KindOf(item))
  {
  }

  /** Every script up to this many bytes can be written: far beyond any memory, and a 16th of what an
      int can count. */
  const ALWAYS_FITS: nat := 0x0800_0000_0000_0000

  /** The capacity after a script on a fresh sink, if it never ran out of room. */
  ghost function CapAll(items: seq<Item>): (c: Option<nat>)
    requires AllWritable(items)
    ensures c.Some? ==> |EncodeAll(items)| <= c.value
  {
    if items == [] then Some(INITIAL_CAPACITY)
    else
      var front, last := items[..|items| - 1], items[|items| - 1];
      var before := CapAll(front);
      if before.None? then None
      else
        RoomForItem(before.value, |EncodeAll(front)|, last);
        CapAfter(before.value, |EncodeAll(front)|, last)
  }

  lemma RoomForItem(c: nat, l: nat, item: Item)
    requires l <= c && Writable(item)
    ensures CapAfter(c, l, item).Some? ==> l + |Encode(item)| <= CapAfter(c, l, item).value
  {
    hide LittleEndian, Pow256;
  }

  lemma GrowBound(c: nat, l: nat, n: nat)
    requires l <= c
    ensures GrowTo(c, l, n).Some? ==> GrowTo(c, l, n).value <= c || GrowTo(c, l, n).value <= 3 * (l + n)
    ensures 2 * c + n <= MAX_INT ==> GrowTo(c, l, n).Some?
  {
  }

  /** Doubling keeps the capacity within three times the bytes in use. */
  ghost predicate Lean(c: nat, l: nat) {
    l <= c <= 3 * (l + RESERVED) + INITIAL_CAPACITY
  }

  lemma ItemKeepsLean(c: nat, l: nat, item: Item)
    requires Lean(c, l) && Writable(item)
    ensures CapAfter(c, l, item).Some? ==> Lean(CapAfter(c, l, item).value, l + |Encode(item)|)
    ensures l + |Encode(item)| <= ALWAYS_FITS ==> CapAfter(c, l, item).Some?
  {
    RoomForItem(c, l, item);
    hide LittleEndian, Pow256, GrowTo;
    GrowBound(c, l, RESERVED);
    GrowBound(c, l, |Encode(item)|);
    if item.VarBytes? && GrowTo(c, l, RESERVED).Some? {
      GrowBound(GrowTo(c, l, RESERVED).value, l + |VarUint(|item.bytes|)|, |item.bytes|);
    }
  }

  /** So a script of up to that size always fits. */
  lemma {:induction false} ScriptFits(items: seq<Item>)
    requires AllWritable(items)
    ensures CapAll(items).Some? ==> Lean(CapAll(items).value, |EncodeAll(items)|)
    ensures |EncodeAll(items)| <= ALWAYS_FITS ==> CapAll(items).Some?
  {
    hide Encode, CapAfter, Writable, Lean;
    if items == [] {
      LeanStart();
    } else {
      var front, last := items[..|items| - 1], items[|items| - 1];
      ScriptFits(front);
      if CapAll(front).Some? {
        ItemKeepsLean(CapAll(front).value, |EncodeAll(front)|, last);
      }
    }
  }

  lemma LeanStart()
    ensures Lean(INITIAL_CAPACITY, 0)
  {
  }

  /** A prefix of a script that fits fits. */
  lemma {:induction false} PrefixFits(items: seq<Item>, i: nat)
    requires AllWritable(items) && i <= |items|
    ensures AllWritable(items[..i]) && (CapAll(items[..i]).None? ==> CapAll(items).None?)
  {
    hide Encode, CapAfter, Writable;
    if i < |items| {
      var front := items[..|items| - 1];
      PrefixFits(front, i);
      assert front[..i] == items[..i];
    } else {
      assert items[..i] == items;
    }
  }

  /** Writes a script into a fresh sink. */
  method WriteScript(items: seq<Item>) returns (ok: bool, bytes: seq<Byte>)
    requires AllWritable(items)
    ensures ok <==> CapAll(items).Some?
    ensures ok ==> bytes == EncodeAll(items) && |bytes| <= MAX_INT
  {
    hide Encode, Parse, Writable, TakeBytes, Readable, CapAfter, Lean;
    var sink := new Sink();
    ok, bytes := true, [];
    var i := 0;
    while i < |items|
      invariant i <= |items| && sink.Valid() && fresh(sink) && fresh(sink.buf)
      invariant ok && AllWritable(items[..i]) && sink.Contents() == EncodeAll(items[..i])
      invariant CapAll(items[..i]) == Some(sink.buf.Length)
    {
      assert Writable(items[i]);
      assert items[..i + 1][..i] == items[..i];
      ok := sink.Write(items[i]);
      if !ok {
        PrefixFits(items, i + 1);
        return;
      }
      i := i + 1;
    }
    assert items[..i] == items;
    bytes := sink.buf[..sink.len];
  }

  /** Reads a script's kinds of values from its bytes. */
  method ReadScript(items: seq<Item>, bytes: seq<Byte>) returns (back: seq<Item>, unread: nat)
    requires AllWritable(items) && bytes == EncodeAll(items) && |bytes| <= MAX_INT
    ensures back == items && unread == 0
  {
    hide Encode, Parse, Writable, TakeBytes, Readable, EncodeAll;
    var source := new Source(bytes);
    RoundTrip(items, []);
    assert EncodeAll(items) + [] == source.s;
    back := [];
    var i := 0;
    while i < |items|
      invariant i <= |items| && source.Valid() && fresh(source) && source.s == EncodeAll(items)
      invariant ParseAll(items[..i], source.s) == Got(back, source.off)
    {
      ReadsOn(items, source.s, i);
      WritableReadable(items[i]);
      assert items[..i + 1][..i] == items[..i];
      var r := source.Read(KindOf(items[i]));
      back := back + [r.value];
      i := i + 1;
    }
    assert items[..i] == items;
    unread := |source.s| - source.off;
  }

  /** Any script: what a fresh sink wrote, a source reads back, every byte of it. */
  method WriteAndRead(items: seq<Item>) returns (ok: bool, back: seq<Item>, unread: nat)
    requires AllWritable(items)
    ensures ok <==> CapAll(items).Some?
    ensures |EncodeAll(items)| <= ALWAYS_FITS ==> ok
    ensures ok ==> back == items && unread == 0
  {
    hide EncodeAll, CapAll, AllWritable;
    ScriptFits(items);
    var bytes;
    ok, bytes := WriteScript(items);
    back, unread := [], 0;
    if ok {
      back, unread := ReadScript(items, bytes);
    }
  }
}
