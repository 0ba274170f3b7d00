/** `list_devs`: the accepted adapters packed into one buffer, each as a record of eight-byte fields
    followed by its three strings, the records linked by pointers into the buffer.

    A cell of memory is a byte, or the k-th of the eight bytes of a stored number or pointer; a
    value is read back only if all its bytes are still there.  Pointers are offsets. */
module DeviceList {
  import opened Common

  type Char = x: int | 0 < x < 0x100 witness 1
  type WChar = x: int | 0 < x < 0x1_0000 witness 1

  datatype Val = Num(n: nat) | Ptr(offset: nat) | Null
  datatype Cell = B(b: Byte) | Part(v: Val, k: nat)

  /** What the system reports of an adapter: whether its type has a bit of the mask, whether it is up,
      whether it has IPv4; its number, and its strings without their terminators. */
  datatype Adapter = Adapter(
    ofType: bool, up: bool, ipv4: bool,
    ifIndex: nat, name: seq<Char>, description: seq<WChar>, friendly: seq<WChar>)

  /** What a record tells of it. */
  datatype Device = Device(ifIndex: nat, name: seq<Char>, description: seq<WChar>, friendly: seq<WChar>)

  function DeviceOf(a: Adapter): Device {
    Device(a.ifIndex, a.name, a.description, a.friendly)
  }

  const RECORD := 40

  predicate Accepted(a: Adapter) {
    a.ofType && a.up && a.ipv4
  }

  function Filter(s: seq<Adapter>): seq<Adapter> {
    if s == [] then []
    else if Accepted(s[0]) then [s[0]] + Filter(s[1..])
    else Filter(s[1..])
  }

  function Devices(s: seq<Adapter>): (r: seq<Device>)
    ensures |r| == |s|
  {
    if s == [] then [] else [DeviceOf(s[0])] + Devices(s[1..])
  }

  // ---- C strings and stored values ---------------------------------------------------------

  function Narrow(s: seq<Char>): (r: seq<Byte>)
    ensures |r| == |s| + 1
  {
    var bytes: seq<Byte> := s;
    bytes + [0]
  }

  function LowByte(w: WChar): Byte {
    w % 0x100
  }

  function HighByte(w: WChar): Byte {
    w / 0x100
  }

  function Wide(s: seq<WChar>): (r: seq<Byte>)
    ensures |r| == 2 * |s| + 2
  {
    if s == [] then [0, 0] else [LowByte(s[0]), HighByte(s[0])] + Wide(s[1..])
  }

  function Cells(s: seq<Byte>): (r: seq<Cell>)
    ensures |r| == |s| && forall i :: 0 <= i < |s| ==> r[i] == B(s[i])
  {
    seq(|s|, i requires 0 <= i < |s| => B(s[i]))
  }

  function Field(v: Val): (r: seq<Cell>)
    ensures |r| == 8
  {
    seq(8, k requires k >= 0 => Part(v, k))
  }

  function SizeOf(a: Adapter): nat {
    |a.name| + |a.description| * 2 + |a.friendly| * 2 + RECORD + 5
  }

  function TotalSize(s: seq<Adapter>): nat {
    if s == [] then 0 else SizeOf(s[0]) + TotalSize(s[1..])
  }

  // ---- The packed form ---------------------------------------------------------------------

  function NameAt(at: nat): nat {
    at + RECORD
  }

  function DescriptionAt(a: Adapter, at: nat): nat {
    NameAt(at) + |a.name| + 1
  }

  function FriendlyAt(a: Adapter, at: nat): nat {
    DescriptionAt(a, at) + 2 * |a.description| + 2
  }

  predicate Holds(m: seq<Cell>, at: nat, c: seq<Cell>) {
    at + |c| <= |m| && forall i {:trigger c[i]} :: 0 <= i < |c| ==> m[at + i] == c[i]
  }

  /** A pointer field and the string that it points to. */
  predicate StringHeld(m: seq<Cell>, fieldAt: nat, pos: nat, src: seq<Byte>) {
    Holds(m, fieldAt, Field(Ptr(pos))) && Holds(m, pos, Cells(src))
  }

  /** The record of `a` at offset `at`, apart from its link. */
  predicate Filled(m: seq<Cell>, a: Adapter, at: nat) {
    && Holds(m, at, Field(Num(a.ifIndex)))
    && StringHeld(m, at + 16, NameAt(at), Narrow(a.name))
    && StringHeld(m, at + 24, DescriptionAt(a, at), Wide(a.description))
    && StringHeld(m, at + 32, FriendlyAt(a, at), Wide(a.friendly))
  }

  predicate Packed(m: seq<Cell>, a: Adapter, at: nat, next: Val) {
    Filled(m, a, at) && Holds(m, at + 8, Field(next))
  }

  /** What it means for a record to be laid out at an offset with a given link. */
  type Layout = (Adapter, nat, Val) -> bool

  function LayoutIn(m: seq<Cell>): Layout {
    (a: Adapter, at: nat, next: Val) => Packed(m, a, at, next)
  }

  /** The records of `s` back to back from offset `at` on, each linked to the next, the last one's
      link being `last`. */
  predicate Chain(laid: Layout, s: seq<Adapter>, at: nat, last: Val)
    decreases |s|
  {
    s == [] ||
    (var end := at + SizeOf(s[0]);
     && laid(s[0], at, if |s| == 1 then last else Ptr(end))
     && Chain(laid, s[1..], end, last))
  }

  // ---- Reading it back ---------------------------------------------------------------------

  function Load(m: seq<Cell>, at: nat): Option<Val> {
    if at < |m| && m[at].Part? && Holds(m, at, Field(m[at].v)) then Some(m[at].v) else None
  }

  function ReadNarrow(m: seq<Cell>, at: nat): Option<seq<Char>>
    decreases |m| - at
  {
    if at >= |m| || !m[at].B? then None
    else if m[at].b == 0 then Some([])
    else
      var rest := ReadNarrow(m, at + 1);
      if rest.None? then None else Some([m[at].b] + rest.value)
  }

  function ReadWide(m: seq<Cell>, at: nat): Option<seq<WChar>>
    decreases |m| - at
  {
    if at + 1 >= |m| || !m[at].B? || !m[at + 1].B? then None
    else if m[at].b == 0 && m[at + 1].b == 0 then Some([])
    else
      var rest := ReadWide(m, at + 2);
      if rest.None? then None else Some([m[at].b + 0x100 * m[at + 1].b] + rest.value)
  }

  function ReadDevice(m: seq<Cell>, at: nat): Option<Device> {
    var idx, name, desc, friendly := Load(m, at), Load(m, at + 16), Load(m, at + 24), Load(m, at + 32);
    if idx.Some? && idx.value.Num? && name.Some? && name.value.Ptr?
       && desc.Some? && desc.value.Ptr? && friendly.Some? && friendly.value.Ptr? then
      var n := ReadNarrow(m, name.value.offset);
      var d, f := ReadWide(m, desc.value.offset), ReadWide(m, friendly.value.offset);
      if n.Some? && d.Some? && f.Some? then Some(Device(idx.value.n, n.value, d.value, f.value)) else None
    else None
  }

  /** The device at an offset and where its `Next` points. */
  function ReadNode(m: seq<Cell>, at: nat): Option<(Device, Val)> {
    var dev, next := ReadDevice(m, at), Load(m, at + 8);
    if dev.Some? && next.Some? then Some((dev.value, next.value)) else None
  }

  type Reader = nat -> Option<(Device, Val)>

  /** Following `Next` from pointer `p` to the null pointer, over at most `most` records. */
  function Follow(node: Reader, p: Val, most: nat): Option<seq<Device>>
    decreases most
  {
    if p.Null? then Some([])
    else if most == 0 || !p.Ptr? || node(p.offset).None? then None
    else
      var rest := Follow(node, node(p.offset).value.1, most - 1);
      if rest.None? then None else Some([node(p.offset).value.0] + rest.value)
  }

  function ReadList(m: seq<Cell>, p: Val, most: nat): Option<seq<Device>> {
    Follow((at: nat) => ReadNode(m, at), p, most)
  }

  lemma LoadField(m: seq<Cell>, at: nat, v: Val)
    requires Holds(m, at, Field(v))
    ensures Load(m, at) == Some(v)
  {
    assert m[at] == Field(v)[0];
  }

  lemma {:induction false} ReadNarrowBack(m: seq<Cell>, at: nat, s: seq<Char>)
    requires Holds(m, at, Cells(Narrow(s)))
    ensures ReadNarrow(m, at) == Some(s)
    decreases |s|
  {
    var c := Cells(Narrow(s));
    assert m[at] == c[0];
    if s != [] {
      assert forall i :: 0 <= i < |s| ==> Cells(Narrow(s[1..]))[i] == c[i + 1];
      ReadNarrowBack(m, at + 1, s[1..]);
      assert s == [s[0]] + s[1..];
    }
  }

  lemma {:induction false} ReadWideBack(m: seq<Cell>, at: nat, s: seq<WChar>)
    requires Holds(m, at, Cells(Wide(s)))
    ensures ReadWide(m, at) == Some(s)
    decreases |s|
  {
    var c := Cells(Wide(s));
    assert m[at] == c[0] && m[at + 1] == c[1];
    if s != [] {
      assert forall i :: 0 <= i < 2 * |s| ==> Cells(Wide(s[1..]))[i] == c[i + 2];
      ReadWideBack(m, at + 2, s[1..]);
      assert s == [s[0]] + s[1..];
    }
  }

  lemma ReadRecordBack(m: seq<Cell>, a: Adapter, at: nat, next: Val)
    requires Packed(m, a, at, next)
    ensures ReadDevice(m, at) == Some(DeviceOf(a)) && Load(m, at + 8) == Some(next)
  {
    LoadField(m, at, Num(a.ifIndex));
    LoadField(m, at + 8, next);
    LoadField(m, at + 16, Ptr(NameAt(at)));
    LoadField(m, at + 24, Ptr(DescriptionAt(a, at)));
    LoadField(m, at + 32, Ptr(FriendlyAt(a, at)));
    ReadNarrowBack(m, NameAt(at), a.name);
    ReadWideBack(m, DescriptionAt(a, at), a.description);
    ReadWideBack(m, FriendlyAt(a, at), a.friendly);
  }

  /** Record by record, what a reader finds. */
  predicate Readable(node: Reader, s: seq<Adapter>, at: nat)
    decreases |s|
  {
    s == [] ||
    (var end := at + SizeOf(s[0]);
     && node(at) == Some((DeviceOf(s[0]), if |s| == 1 then Null else Ptr(end)))
     && Readable(node, s[1..], end))
  }

  lemma {:induction false} ChainReadable(m: seq<Cell>, s: seq<Adapter>, at: nat, node: Reader)
    requires Chain(LayoutIn(m), s, at, Null) && forall o :: node(o) == ReadNode(m, o)
    ensures Readable(node, s, at)
    decreases |s|
  {
    if s != [] {
      var end := at + SizeOf(s[0]);
      ReadRecordBack(m, s[0], at, if |s| == 1 then Null else Ptr(end));
      ChainReadable(m, s[1..], end, node);
    }
  }

  lemma {:induction false} ReadableList(node: Reader, s: seq<Adapter>, at: nat, most: nat)
    requires Readable(node, s, at) && most >= |s|
    ensures Follow(node, if s == [] then Null else Ptr(at), most) == Some(Devices(s))
    decreases |s|
  {
    if s != [] {
      ReadableList(node, s[1..], at + SizeOf(s[0]), most - 1);
    }
  }

  /** The packed list read back by its pointers is the list of devices, and there is nothing after
      the last one. */
  lemma ReadChainBack(m: seq<Cell>, s: seq<Adapter>, most: nat)
    requires Chain(LayoutIn(m), s, 0, Null) && s != [] && most >= |s|
    ensures ReadList(m, Ptr(0), most) == Some(Devices(s))
  {
    var node: Reader := (at: nat) => ReadNode(m, at);
    ChainReadable(m, s, 0, node);
    ReadableList(node, s, 0, most);
    assert ReadList(m, Ptr(0), most) == Follow(node, Ptr(0), most);
  }

  lemma HoldsFrame(m: seq<Cell>, m': seq<Cell>, at: nat, c: seq<Cell>, end: nat)
    requires Holds(m, at, c) && at + |c| <= end <= |m| && end <= |m'| && m'[..end] == m[..end]
    ensures Holds(m', at, c)
  {
    forall i | 0 <= i < |c|
      ensures m'[at + i] == c[i]
    {
      assert m'[..end][at + i] == m[..end][at + i];
    }
  }

  lemma PackedFrame(m: seq<Cell>, m': seq<Cell>, a: Adapter, at: nat, next: Val, end: nat)
    requires Packed(m, a, at, next) && at + SizeOf(a) <= end <= |m| && end <= |m'| && m'[..end] == m[..end]
    ensures Packed(m', a, at, next)
  {
    HoldsFrame(m, m', at, Field(Num(a.ifIndex)), end);
    HoldsFrame(m, m', at + 8, Field(next), end);
    HoldsFrame(m, m', at + 16, Field(Ptr(NameAt(at))), end);
    HoldsFrame(m, m', at + 24, Field(Ptr(DescriptionAt(a, at))), end);
    HoldsFrame(m, m', at + 32, Field(Ptr(FriendlyAt(a, at))), end);
    HoldsFrame(m, m', NameAt(at), Cells(Narrow(a.name)), end);
    HoldsFrame(m, m', DescriptionAt(a, at), Cells(Wide(a.description)), end);
    HoldsFrame(m, m', FriendlyAt(a, at), Cells(Wide(a.friendly)), end);
  }

  /** Writing behind a chain does not disturb it. */
  lemma {:induction false} ChainFrame(m: seq<Cell>, m': seq<Cell>, s: seq<Adapter>, at: nat, last: Val, end: nat)
    requires Chain(LayoutIn(m), s, at, last)
    requires at + TotalSize(s) <= end <= |m| && end <= |m'| && m'[..end] == m[..end]
    ensures Chain(LayoutIn(m'), s, at, last)
    decreases |s|
  {
    if s != [] {
      var e := at + SizeOf(s[0]);
      PackedFrame(m, m', s[0], at, if |s| == 1 then last else Ptr(e), end);
      ChainFrame(m, m', s[1..], e, last, end);
    }
  }

  lemma {:induction false} ChainAppend(laid: Layout, s: seq<Adapter>, at: nat, end: nat, a: Adapter, next: Val)
    requires end == at + TotalSize(s) && Chain(laid, s, at, Ptr(end)) && laid(a, end, next)
    ensures Chain(laid, s + [a], at, next)
    decreases |s|
  {
    if s == [] {
      assert s + [a] == [a] && [a][1..] == [];
    } else {
      var head, tail := s[0], s[1..];
      assert (s + [a])[1..] == tail + [a];
      ChainAppend(laid, tail, at + SizeOf(head), end, a, next);
    }
  }

  lemma {:induction false} TotalAppend(s: seq<Adapter>, t: seq<Adapter>)
    ensures TotalSize(s + t) == TotalSize(s) + TotalSize(t)
  {
    if s == [] {
      assert s + t == t;
    } else {
      TotalAppend(s[1..], t);
      assert (s + t)[1..] == s[1..] + t;
    }
  }

  // ---- The two passes ----------------------------------------------------------------------

  /** Cells outside `[lo, hi)` are as before. */
  predicate SameOutside(m: seq<Cell>, m': seq<Cell>, lo: nat, hi: nat) {
    |m'| == |m| && forall i :: 0 <= i < |m| && !(lo <= i < hi) ==> m'[i] == m[i]
  }

  lemma HoldsKept(m: seq<Cell>, m': seq<Cell>, at: nat, c: seq<Cell>, lo: nat, hi: nat)
    requires Holds(m, at, c) && SameOutside(m, m', lo, hi) && (at + |c| <= lo || hi <= at)
    ensures Holds(m', at, c)
  {
  }

  method StoreField(buf: array<Cell>, at: nat, v: Val)
    requires at + 8 <= buf.Length
    modifies buf
    ensures Holds(buf[..], at, Field(v)) && SameOutside(old(buf[..]), buf[..], at, at + 8)
  {
    forall k | 0 <= k < 8 {
      buf[at + k] := Part(v, k);
    }
  }

  /** A C string, with its terminator and with no terminator before. */
  predicate Terminated(src: seq<Byte>, isW: bool) {
    if isW then
      && |src| >= 2 && |src| % 2 == 0 && src[|src| - 2] == 0 && src[|src| - 1] == 0
      && forall j :: 0 <= j < |src| / 2 - 1 ==> !(src[2 * j] == 0 && src[2 * j + 1] == 0)
    else |src| >= 1 && src[|src| - 1] == 0 && forall j :: 0 <= j < |src| - 1 ==> src[j] != 0
  }

  lemma {:induction false} WideTerminated(s: seq<WChar>)
    ensures Terminated(Wide(s), true)
  {
    if s != [] {
      WideTerminated(s[1..]);
      var w, t := Wide(s), Wide(s[1..]);
      forall j | 0 <= j < |w| / 2 - 1
        ensures !(w[2 * j] == 0 && w[2 * j + 1] == 0)
      {
        if j > 0 {
          assert w[2 * j] == t[2 * (j - 1)] && w[2 * j + 1] == t[2 * (j - 1) + 1];
        }
      }
    }
  }

  /** How much `my_copy` copies: the whole string if `max` allows, else `max` bytes, rounded up to
      whole characters. */
  function CopyLen(src: seq<Byte>, max: int, isW: bool): nat {
    var room := if max <= 0 then 0 else if isW then max + max % 2 else max;
    if |src| <= room then |src| else room
  }

  method CopyNarrow(buf: array<Cell>, dst: nat, src: seq<Byte>, max: int) returns (i: nat)
    requires Terminated(src, false) && dst + CopyLen(src, max, false) <= buf.Length
    modifies buf
    ensures i == CopyLen(src, max, false)
    ensures forall j :: 0 <= j < i ==> buf[dst + j] == B(src[j])
    ensures SameOutside(old(buf[..]), buf[..], dst, dst + i)
  {
    i := 0;
    while i < max
      invariant (i <= max || i == 0) && i < |src|
      invariant forall j :: 0 <= j < i ==> buf[dst + j] == B(src[j])
      invariant forall j :: 0 <= j < buf.Length && !(dst <= j < dst + i) ==> buf[j] == old(buf[j])
    {
      buf[dst + i] := B(src[i]);
      if src[i] == 0 {
        i := i + 1;
        break;
      }
      i := i + 1;
    }
  }

  method CopyWide(buf: array<Cell>, dst: nat, src: seq<Byte>, max: int) returns (i: nat)
    requires Terminated(src, true) && dst + CopyLen(src, max, true) <= buf.Length
    modifies buf
    ensures i == CopyLen(src, max, true)
    ensures forall j :: 0 <= j < i ==> buf[dst + j] == B(src[j])
    ensures SameOutside(old(buf[..]), buf[..], dst, dst + i)
  {
    i := 0;
    ghost var half: nat := 0;
    while i < max
      invariant i == 2 * half && (i <= max + max % 2 || i == 0) && half < |src| / 2
      invariant forall j :: 0 <= j < i ==> buf[dst + j] == B(src[j])
      invariant forall j :: 0 <= j < buf.Length && !(dst <= j < dst + i) ==> buf[j] == old(buf[j])
    {
      buf[dst + i] := B(src[i]);
      buf[dst + i + 1] := B(src[i + 1]);
      if src[i] == 0 && src[i + 1] == 0 {
        i := i + 2;
        break;
      }
      i, half := i + 2, half + 1;
    }
  }

  /** `my_copy`; `rem` is what it leaves in `*max`. */
  method MyCopy(buf: array<Cell>, dst: nat, src: seq<Byte>, max: int, isW: bool) returns (cn: nat, rem: int)
    requires Terminated(src, isW) && dst + CopyLen(src, max, isW) <= buf.Length
    modifies buf
    ensures cn == CopyLen(src, max, isW) && rem == max - cn
    ensures |src| <= max ==> cn == |src|
    ensures max <= 0 ==> cn == 0
    ensures 0 < max < |src| ==> cn == if isW && max % 2 == 1 then max + 1 else max
    ensures Holds(buf[..], dst, Cells(src[..cn])) && SameOutside(old(buf[..]), buf[..], dst, dst + cn)
  {
    if !isW {
      cn := CopyNarrow(buf, dst, src, max);
    } else {
      cn := CopyWide(buf, dst, src, max);
    }
    rem := max - cn;
  }

  /** Only the field at `fieldAt` and the cells from `pos` to `end` are changed. */
  predicate SameBeside(m: seq<Cell>, m': seq<Cell>, fieldAt: nat, pos: nat, end: nat) {
    && |m'| == |m|
    && forall i :: 0 <= i < |m| && !(fieldAt <= i < fieldAt + 8) && !(pos <= i < end) ==> m'[i] == m[i]
  }

  lemma HoldsBeside(m: seq<Cell>, m': seq<Cell>, at: nat, c: seq<Cell>, fieldAt: nat, pos: nat, end: nat)
    requires Holds(m, at, c) && SameBeside(m, m', fieldAt, pos, end)
    requires at + |c| <= fieldAt || fieldAt + 8 <= at
    requires at + |c| <= pos || end <= at
    ensures Holds(m', at, c)
  {
  }

  /** The copy of one string and the store of the pointer to it. */
  method PackString(buf: array<Cell>, fieldAt: nat, pos: nat, src: seq<Byte>, bufsize: int, isW: bool)
    returns (cn: nat, rem: int)
    requires Terminated(src, isW) && |src| <= bufsize && fieldAt + 8 <= pos && pos + |src| <= buf.Length
    modifies buf
    ensures cn == |src| && rem == bufsize - |src|
    ensures StringHeld(buf[..], fieldAt, pos, src)
    ensures SameBeside(old(buf[..]), buf[..], fieldAt, pos, pos + |src|)
  {
    cn, rem := MyCopy(buf, pos, src, bufsize, isW);
    assert src[..cn] == src;
    ghost var m := buf[..];
    StoreField(buf, fieldAt, Ptr(pos));
    HoldsKept(m, buf[..], pos, Cells(src), fieldAt, fieldAt + 8);
  }

  /** The number and the name. */
  predicate Begun(m: seq<Cell>, a: Adapter, at: nat) {
    Holds(m, at, Field(Num(a.ifIndex))) && StringHeld(m, at + 16, NameAt(at), Narrow(a.name))
  }

  method BeginRecord(buf: array<Cell>, cur: nat, a: Adapter, bufsize: int) returns (copyPos: nat, rem: int)
    requires cur + SizeOf(a) <= buf.Length && SizeOf(a) <= bufsize
    modifies buf
    ensures copyPos == DescriptionAt(a, cur) && rem == bufsize - (copyPos - cur)
    ensures Begun(buf[..], a, cur) && SameOutside(old(buf[..]), buf[..], cur, copyPos)
  {
    StoreField(buf, cur, Num(a.ifIndex));
    ghost var m := buf[..];
    copyPos, rem := cur + RECORD, bufsize - RECORD;
    var cn;
    cn, rem := PackString(buf, cur + 16, copyPos, Narrow(a.name), rem, false);
    copyPos := copyPos + cn;
    HoldsBeside(m, buf[..], cur, Field(Num(a.ifIndex)), cur + 16, NameAt(cur), copyPos);
  }

  lemma BegunBeside(m: seq<Cell>, m': seq<Cell>, a: Adapter, at: nat, fieldAt: nat, pos: nat, end: nat)
    requires Begun(m, a, at) && SameBeside(m, m', fieldAt, pos, end)
    requires at + 24 <= fieldAt <= at + 32 && DescriptionAt(a, at) <= pos
    ensures Begun(m', a, at)
  {
    HoldsBeside(m, m', at, Field(Num(a.ifIndex)), fieldAt, pos, end);
    HoldsBeside(m, m', at + 16, Field(Ptr(NameAt(at))), fieldAt, pos, end);
    HoldsBeside(m, m', NameAt(at), Cells(Narrow(a.name)), fieldAt, pos, end);
  }

  lemma OutsideBeside(m0: seq<Cell>, m1: seq<Cell>, m2: seq<Cell>, lo: nat, fieldAt: nat, pos: nat, end: nat)
    requires SameOutside(m0, m1, lo, pos) && SameBeside(m1, m2, fieldAt, pos, end)
    requires lo <= fieldAt && fieldAt + 8 <= pos <= end
    ensures SameOutside(m0, m2, lo, end)
  {
  }

  /** The number, the name and the description. */
  predicate Described(m: seq<Cell>, a: Adapter, at: nat) {
    Begun(m, a, at) && StringHeld(m, at + 24, DescriptionAt(a, at), Wide(a.description))
  }

  lemma DescribedNext(m0: seq<Cell>, m1: seq<Cell>, m2: seq<Cell>, a: Adapter, at: nat)
    requires Begun(m1, a, at) && SameOutside(m0, m1, at, DescriptionAt(a, at))
    requires StringHeld(m2, at + 24, DescriptionAt(a, at), Wide(a.description))
    requires SameBeside(m1, m2, at + 24, DescriptionAt(a, at), FriendlyAt(a, at))
    ensures Described(m2, a, at) && SameOutside(m0, m2, at, FriendlyAt(a, at))
  {
    BegunBeside(m1, m2, a, at, at + 24, DescriptionAt(a, at), FriendlyAt(a, at));
    OutsideBeside(m0, m1, m2, at, at + 24, DescriptionAt(a, at), FriendlyAt(a, at));
  }

  lemma FilledLast(m0: seq<Cell>, m2: seq<Cell>, m3: seq<Cell>, a: Adapter, at: nat)
    requires Described(m2, a, at) && SameOutside(m0, m2, at, FriendlyAt(a, at))
    requires StringHeld(m3, at + 32, FriendlyAt(a, at), Wide(a.friendly))
    requires SameBeside(m2, m3, at + 32, FriendlyAt(a, at), at + SizeOf(a))
    ensures Filled(m3, a, at) && SameOutside(m0, m3, at, at + SizeOf(a))
  {
    var pos, end := FriendlyAt(a, at), at + SizeOf(a);
    BegunBeside(m2, m3, a, at, at + 32, pos, end);
    HoldsBeside(m2, m3, at + 24, Field(Ptr(DescriptionAt(a, at))), at + 32, pos, end);
    HoldsBeside(m2, m3, DescriptionAt(a, at), Cells(Wide(a.description)), at + 32, pos, end);
    OutsideBeside(m0, m2, m3, at, at + 32, pos, end);
  }

  method AddDescription(buf: array<Cell>, cur: nat, a: Adapter, copyPos: nat, bufsize: int, ghost m0: seq<Cell>)
    returns (cn: nat, rem: int)
    requires cur + SizeOf(a) <= buf.Length && copyPos == DescriptionAt(a, cur) && 2 * |a.description| + 2 <= bufsize
    requires Begun(buf[..], a, cur) && SameOutside(m0, buf[..], cur, copyPos)
    modifies buf
    ensures cn == 2 * |a.description| + 2 && rem == bufsize - cn
    ensures Described(buf[..], a, cur) && SameOutside(m0, buf[..], cur, copyPos + cn)
  {
    ghost var m1 := buf[..];
    WideTerminated(a.description);
    cn, rem := PackString(buf, cur + 24, copyPos, Wide(a.description), bufsize, true);
    DescribedNext(m0, m1, buf[..], a, cur);
  }

  method AddFriendly(buf: array<Cell>, cur: nat, a: Adapter, copyPos: nat, bufsize: int, ghost m0: seq<Cell>)
    returns (cn: nat, rem: int)
    requires cur + SizeOf(a) <= buf.Length && copyPos == FriendlyAt(a, cur) && 2 * |a.friendly| + 2 <= bufsize
    requires Described(buf[..], a, cur) && SameOutside(m0, buf[..], cur, copyPos)
    modifies buf
    ensures cn == 2 * |a.friendly| + 2 && rem == bufsize - cn
    ensures Filled(buf[..], a, cur) && SameOutside(m0, buf[..], cur, copyPos + cn)
  {
    ghost var m2 := buf[..];
    WideTerminated(a.friendly);
    cn, rem := PackString(buf, cur + 32, copyPos, Wide(a.friendly), bufsize, true);
    FilledLast(m0, m2, buf[..], a, cur);
  }

  /** Lines 97 to 111: one record but for its link. */
  method FillRecord(buf: array<Cell>, cur: nat, a: Adapter, bufsize: int) returns (copyPos: nat, rem: int)
    requires cur + SizeOf(a) <= buf.Length && SizeOf(a) <= bufsize
    modifies buf
    ensures copyPos == cur + SizeOf(a) && rem == bufsize - SizeOf(a)
    ensures Filled(buf[..], a, cur) && SameOutside(old(buf[..]), buf[..], cur, copyPos)
  {
    ghost var m0 := buf[..];
    copyPos, rem := BeginRecord(buf, cur, a, bufsize);
    var cn;
    cn, rem := AddDescription(buf, cur, a, copyPos, rem, m0);
    copyPos := copyPos + cn;
    cn, rem := AddFriendly(buf, cur, a, copyPos, rem, m0);
    copyPos := copyPos + cn;
  }

  // ---- The whole list ----------------------------------------------------------------------

  /** `OutOfBounds` is a store of eight bytes at an offset where a buffer of the given size has none. */
  datatype Outcome = OutOfBounds(at: nat, size: nat) | Buffer(buf: array<Cell>)

  lemma {:induction false} FilterSnoc(s: seq<Adapter>, a: Adapter)
    ensures Filter(s + [a]) == if Accepted(a) then Filter(s) + [a] else Filter(s)
  {
    if s == [] {
      assert s + [a] == [a] && [a][1..] == [];
    } else {
      FilterSnoc(s[1..], a);
      assert (s + [a])[1..] == s[1..] + [a];
    }
  }

  /** `at` lists, in increasing order, the positions of the adapters that have the type, are up and have
      IPv4. */
  predicate Picks(s: seq<Adapter>, at: seq<nat>) {
    && (forall k :: 0 <= k < |s| ==> (k in at <==> s[k].ofType && s[k].up && s[k].ipv4))
    && (forall i :: 0 <= i < |at| ==> at[i] < |s|)
    && (forall i, j :: 0 <= i < j < |at| ==> at[i] < at[j])
  }

  predicate Selects(s: seq<Adapter>, f: seq<Adapter>, at: seq<nat>) {
    Picks(s, at) && |f| == |at| && forall i :: 0 <= i < |at| ==> f[i] == s[at[i]]
  }

  lemma SelectsNext(s: seq<Adapter>, f: seq<Adapter>, at: seq<nat>, a: Adapter)
    requires Selects(s, f, at)
    ensures if a.ofType && a.up && a.ipv4 then Selects(s + [a], f + [a], at + [|s|]) else Selects(s + [a], f, at)
  {
    assert |s| !in at;
  }

  /** Which adapters are listed, and in which order: each of these once. */
  lemma {:induction false} FilterPicks(s: seq<Adapter>) returns (at: seq<nat>)
    ensures Selects(s, Filter(s), at)
  {
    if s == [] {
      at := [];
    } else {
      var front, a := s[..|s| - 1], s[|s| - 1];
      assert s == front + [a];
      at := FilterPicks(front);
      FilterSnoc(front, a);
      SelectsNext(front, Filter(front), at, a);
      if a.ofType && a.up && a.ipv4 {
        at := at + [|front|];
      }
    }
  }

  lemma {:induction false} DevicesAt(s: seq<Adapter>, i: nat)
    requires i < |s|
    ensures var d := Devices(s)[i];
      && d.ifIndex == s[i].ifIndex && d.name == s[i].name
      && d.description == s[i].description && d.friendly == s[i].friendly
  {
    if i > 0 {
      DevicesAt(s[1..], i - 1);
    }
  }

  /** The first pass. */
  method Sizing(adapters: seq<Adapter>) returns (bufsize: nat)
    ensures bufsize == TotalSize(Filter(adapters))
  {
    bufsize := 0;
    for k := 0 to |adapters|
      invariant bufsize == TotalSize(Filter(adapters[..k]))
    {
      var a := adapters[k];
      assert adapters[..k + 1] == adapters[..k] + [a];
      FilterSnoc(adapters[..k], a);
      TotalCons(a, Filter(adapters[..k]));
      if Accepted(a) {
        bufsize := bufsize + (|a.name| + |a.description| * 2 + |a.friendly| * 2 + RECORD + 5);
      }
    }
    assert adapters[..|adapters|] == adapters;
  }

  /** One pass of the second loop over an accepted adapter: fill the record at `cur`, and link it to
      the place behind it unless the buffer is used up. */
  method PackNext(buf: array<Cell>, ghost done: seq<Adapter>, cur: nat, a: Adapter, bufsize: int)
    returns (next: nat, rem: int)
    requires cur == TotalSize(done) && cur + SizeOf(a) <= buf.Length && SizeOf(a) <= bufsize
    requires Chain(LayoutIn(buf[..]), done, 0, Ptr(cur))
    modifies buf
    ensures next == cur + SizeOf(a) && rem == bufsize - SizeOf(a)
    ensures rem == 0 ==> Chain(LayoutIn(buf[..]), done, 0, Ptr(cur)) && Filled(buf[..], a, cur)
    ensures rem != 0 ==> Chain(LayoutIn(buf[..]), done + [a], 0, Ptr(next))
  {
    ghost var m := buf[..];
    next, rem := FillRecord(buf, cur, a, bufsize);
    ghost var m1 := buf[..];
    assert m1[..cur] == m[..cur];
    ChainFrame(m, m1, done, 0, Ptr(cur), cur);
    if rem != 0 {
      StoreField(buf, cur + 8, Ptr(next));
      Linked(m1, buf[..], done, cur, a, Ptr(next));
    }
  }

  lemma Linked(m: seq<Cell>, m': seq<Cell>, done: seq<Adapter>, cur: nat, a: Adapter, next: Val)
    requires cur == TotalSize(done) && cur + SizeOf(a) <= |m|
    requires Chain(LayoutIn(m), done, 0, Ptr(cur)) && Filled(m, a, cur)
    requires SameOutside(m, m', cur + 8, cur + 16) && Holds(m', cur + 8, Field(next))
    ensures Chain(LayoutIn(m'), done + [a], 0, next)
  {
    assert m'[..cur] == m[..cur];
    ChainFrame(m, m', done, 0, Ptr(cur), cur);
    LinkKeeps(m, m', a, cur);
    LaidOut(m', a, cur, next);
    ChainAppend(LayoutIn(m'), done, 0, cur, a, next);
  }

  lemma LaidOut(m: seq<Cell>, a: Adapter, at: nat, next: Val)
    requires Filled(m, a, at) && Holds(m, at + 8, Field(next))
    ensures LayoutIn(m)(a, at, next)
  {
  }

  lemma LinkKeeps(m: seq<Cell>, m': seq<Cell>, a: Adapter, at: nat)
    requires Filled(m, a, at) && SameOutside(m, m', at + 8, at + 16)
    ensures Filled(m', a, at)
  {
    HoldsKept(m, m', at, Field(Num(a.ifIndex)), at + 8, at + 16);
    HoldsKept(m, m', at + 16, Field(Ptr(NameAt(at))), at + 8, at + 16);
    HoldsKept(m, m', at + 24, Field(Ptr(DescriptionAt(a, at))), at + 8, at + 16);
    HoldsKept(m, m', at + 32, Field(Ptr(FriendlyAt(a, at))), at + 8, at + 16);
    HoldsKept(m, m', NameAt(at), Cells(Narrow(a.name)), at + 8, at + 16);
    HoldsKept(m, m', DescriptionAt(a, at), Cells(Wide(a.description)), at + 8, at + 16);
    HoldsKept(m, m', FriendlyAt(a, at), Cells(Wide(a.friendly)), at + 8, at + 16);
  }

  lemma TotalCons(a: Adapter, s: seq<Adapter>)
    ensures TotalSize([a] + s) == SizeOf(a) + TotalSize(s)
    ensures TotalSize(s + [a]) == TotalSize(s) + SizeOf(a)
  {
    assert ([a] + s)[1..] == s;
    TotalAppend(s, [a]);
    assert [a][1..] == [];
  }

  /** How far the second loop has got: `done` lies in the first `cur` bytes, and the `bufsize` bytes
      behind are just what the accepted adapters from `k` on need. */
  predicate Remaining(adapters: seq<Adapter>, k: nat, done: seq<Adapter>, cur: nat, bufsize: int)
    requires k <= |adapters|
  {
    && Filter(adapters) == done + Filter(adapters[k..])
    && cur == TotalSize(done) && bufsize == TotalSize(Filter(adapters[k..]))
  }

  lemma RemainingStep(adapters: seq<Adapter>, k: nat, done: seq<Adapter>, cur: nat, bufsize: int)
    requires k < |adapters| && Remaining(adapters, k, done, cur, bufsize)
    ensures var a := adapters[k];
      if Accepted(a)
      then SizeOf(a) <= bufsize && Remaining(adapters, k + 1, done + [a], cur + SizeOf(a), bufsize - SizeOf(a))
      else Remaining(adapters, k + 1, done, cur, bufsize)
  {
    var a, rest := adapters[k], Filter(adapters[k + 1..]);
    assert adapters[k..][1..] == adapters[k + 1..];
    if Accepted(a) {
      TotalCons(a, rest);
      TotalCons(a, done);
      assert done + ([a] + rest) == (done + [a]) + rest;
    }
  }

  /** A reader that follows the links finds the devices of `all`, however many records it is
      prepared to see beyond them. */
  ghost predicate ReadsAs(m: seq<Cell>, all: seq<Adapter>) {
    forall most: nat :: most >= |all| ==> ReadList(m, Ptr(0), most) == Some(Devices(all))
  }

  lemma ReadsBack(m: seq<Cell>, all: seq<Adapter>)
    requires Chain(LayoutIn(m), all, 0, Null) && all != []
    ensures ReadsAs(m, all)
  {
    forall most: nat | most >= |all|
      ensures ReadList(m, Ptr(0), most) == Some(Devices(all))
    {
      ReadChainBack(m, all, most);
    }
  }

  /** The last record: its link is set to null and the list is complete. */
  method FinishList(buf: array<Cell>, ghost done: seq<Adapter>, cur: nat, ghost a: Adapter)
    requires cur == TotalSize(done) && cur + SizeOf(a) <= buf.Length
    requires Chain(LayoutIn(buf[..]), done, 0, Ptr(cur)) && Filled(buf[..], a, cur)
    modifies buf
    ensures Chain(LayoutIn(buf[..]), done + [a], 0, Null) && ReadsAs(buf[..], done + [a])
  {
    ghost var m := buf[..];
    StoreField(buf, cur + 8, Null);
    Linked(m, buf[..], done, cur, a, Null);
    ReadsBack(buf[..], done + [a]);
  }

  /** Where the second loop stands when it is left: at the last record, filled but for its link, or,
      with nothing packed, at the start of an empty buffer. */
  predicate LoopLeft(adapters: seq<Adapter>, m: seq<Cell>, done: seq<Adapter>, cur: nat, last: Option<Adapter>) {
    if last.None? then Filter(adapters) == [] && m == [] && cur == 0
    else
      && Filter(adapters) == done + [last.value] && |m| == TotalSize(Filter(adapters))
      && cur == TotalSize(done) && cur + SizeOf(last.value) == |m|
      && Chain(LayoutIn(m), done, 0, Ptr(cur)) && Filled(m, last.value, cur)
  }

  /** No bytes left means no adapters left. */
  lemma NothingRemains(adapters: seq<Adapter>, k: nat, m: seq<Cell>, done: seq<Adapter>, cur: nat, a: Adapter)
    requires k <= |adapters| && Remaining(adapters, k, done + [a], cur + SizeOf(a), 0)
    requires cur == TotalSize(done) && cur + SizeOf(a) == |m|
    requires Chain(LayoutIn(m), done, 0, Ptr(cur)) && Filled(m, a, cur)
    ensures LoopLeft(adapters, m, done, cur, Some(a))
  {
    assert Filter(adapters[k..]) == [];
  }

  /** The second pass up to its last store. */
  method PackAll(buf: array<Cell>, adapters: seq<Adapter>)
    returns (cur: nat, ghost done: seq<Adapter>, ghost last: Option<Adapter>)
    requires buf.Length == TotalSize(Filter(adapters))
    modifies buf
    ensures LoopLeft(adapters, buf[..], done, cur, last)
  {
    var bufsize, k: nat := buf.Length, 0;
    cur, done := 0, [];
    assert adapters[0..] == adapters;
    while k < |adapters|
      invariant k <= |adapters| && Remaining(adapters, k, done, cur, bufsize)
      invariant buf.Length == cur + bufsize && (bufsize == 0 ==> cur == 0)
      invariant Chain(LayoutIn(buf[..]), done, 0, Ptr(cur))
    {
      RemainingStep(adapters, k, done, cur, bufsize);
      var a := adapters[k];
      if Accepted(a) {
        var next, rem := PackNext(buf, done, cur, a, bufsize);
        bufsize := rem;
        if bufsize == 0 {
          NothingRemains(adapters, k + 1, buf[..], done, cur, a);
          last := Some(a);
          return;
        }
        done := done + [a];
        cur := next;
      }
      k := k + 1;
    }
    last := None;
    assert adapters[k..] == [];
  }

  /** The devices `l` are what the adapters at the positions `at` say of themselves. */
  predicate Describes(l: seq<Device>, adapters: seq<Adapter>, at: seq<nat>) {
    && |l| == |at|
    && forall i :: 0 <= i < |at| ==>
         at[i] < |adapters| && var a := adapters[at[i]];
         && l[i].ifIndex == a.ifIndex && l[i].name == a.name
         && l[i].description == a.description && l[i].friendly == a.friendly
  }

  lemma NonePicked(adapters: seq<Adapter>, at: seq<nat>)
    requires Picks(adapters, at)
    ensures at == [] <==> forall a :: a in adapters ==> !(a.ofType && a.up && a.ipv4)
  {
    if at != [] {
      assert at[0] in at && adapters[at[0]] in adapters;
    }
  }

  lemma ReadPicks(m: seq<Cell>, adapters: seq<Adapter>, at: seq<nat>, most: nat)
    requires ReadsAs(m, Filter(adapters)) && most >= |at|
    requires Selects(adapters, Filter(adapters), at)
    ensures ReadList(m, Ptr(0), most).Some? && Describes(ReadList(m, Ptr(0), most).value, adapters, at)
  {
    forall i | 0 <= i < |at|
      ensures var d, a := Devices(Filter(adapters))[i], adapters[at[i]];
        d.ifIndex == a.ifIndex && d.name == a.name && d.description == a.description && d.friendly == a.friendly
    {
      DevicesAt(Filter(adapters), i);
    }
  }

  /** `list_devs`.  The buffer is exactly as large as the records packed into it, and read back by
      its pointers it gives exactly the adapters that have the type, are up and have IPv4, in order,
      their strings whole; they are those at positions `at`.  If there is none, the store of the null
      link misses the buffer, which is empty. */
  method ListDevs(adapters: seq<Adapter>) returns (r: Outcome, ghost at: seq<nat>)
    ensures Picks(adapters, at)
    ensures r.Buffer? ==> forall most: nat :: most >= |at| ==>
      var l := ReadList(r.buf[..], Ptr(0), most); l.Some? && Describes(l.value, adapters, at)
    ensures r.OutOfBounds? <==> forall a :: a in adapters ==> !(a.ofType && a.up && a.ipv4)
    ensures r.OutOfBounds? <==> Filter(adapters) == []
    ensures r.OutOfBounds? ==> r.at == 8 && r.size == 0
    ensures r.Buffer? ==>
      var all := Filter(adapters);
      && fresh(r.buf) && r.buf.Length == TotalSize(all)
      && Chain(LayoutIn(r.buf[..]), all, 0, Null)
      && ReadsAs(r.buf[..], all)
  {
    at := FilterPicks(adapters);
    NonePicked(adapters, at);
    var bufsize := Sizing(adapters);
    var buf := new Cell[bufsize](_ => B(0));
    ghost var done, last;
    var cur;
    cur, done, last := PackAll(buf, adapters);
    assert |buf[..]| == bufsize;
    if cur + 16 > buf.Length {
      r := OutOfBounds(cur + 8, buf.Length);
      return;
    }
    FinishList(buf, done, cur, last.value);
    r := Buffer(buf);
    forall most: nat | most >= |at|
      ensures var l := ReadList(buf[..], Ptr(0), most); l.Some? && Describes(l.value, adapters, at)
    {
      ReadPicks(buf[..], adapters, at, most);
    }
  }

  // ---- Where things lie --------------------------------------------------------------------

  /** Where record `i` starts. */
  function StartOf(s: seq<Adapter>, i: nat): nat
    requires i <= |s|
  {
    if i == 0 then 0 else StartOf(s, i - 1) + SizeOf(s[i - 1])
  }

  lemma {:induction false} StartShift(s: seq<Adapter>, i: nat)
    requires s != [] && i <= |s| - 1
    ensures StartOf(s, i + 1) == SizeOf(s[0]) + StartOf(s[1..], i)
  {
    if i > 0 {
      StartShift(s, i - 1);
    }
  }

  lemma {:induction false} StartAtEnd(s: seq<Adapter>)
    ensures StartOf(s, |s|) == TotalSize(s)
  {
    if s != [] {
      StartShift(s, |s| - 1);
      StartAtEnd(s[1..]);
    }
  }

  lemma {:induction false} StartsGrow(s: seq<Adapter>, i: nat, j: nat)
    requires i < j <= |s|
    ensures StartOf(s, i) + SizeOf(s[i]) <= StartOf(s, j)
  {
    if i + 1 < j {
      StartsGrow(s, i, j - 1);
    }
  }

  /** The record of an adapter as `nets.h` declares it: its number at 0, the link at 8, and at 16, 24 and
      32 the pointers to its name, its description and its friendly name, which follow the record. */
  lemma RecordFields(m: seq<Cell>, a: Adapter, at: nat, next: Val, k: nat)
    requires Packed(m, a, at, next) && k < 8
    ensures var name := at + 40;
      var description := name + |a.name| + 1;
      var friendly := description + 2 * |a.description| + 2;
      && at + 40 <= |m|
      && m[at + k] == Part(Num(a.ifIndex), k) && m[at + 8 + k] == Part(next, k)
      && m[at + 16 + k] == Part(Ptr(name), k)
      && m[at + 24 + k] == Part(Ptr(description), k)
      && m[at + 32 + k] == Part(Ptr(friendly), k)
  {
    assert Field(Num(a.ifIndex))[k] == Part(Num(a.ifIndex), k) && Field(next)[k] == Part(next, k);
    assert Field(Ptr(NameAt(at)))[k] == Part(Ptr(NameAt(at)), k);
    assert Field(Ptr(DescriptionAt(a, at)))[k] == Part(Ptr(DescriptionAt(a, at)), k);
    assert Field(Ptr(FriendlyAt(a, at)))[k] == Part(Ptr(FriendlyAt(a, at)), k);
  }

  /** A wide string in memory: two bytes a character, the lower one first, and two zeros at the end. */
  lemma {:induction false} WideAt(s: seq<WChar>, j: nat)
    requires j <= |s|
    ensures var c: int := if j < |s| then s[j] else 0;
      Wide(s)[2 * j] == c % 0x100 && Wide(s)[2 * j + 1] == c / 0x100
  {
    if j > 0 {
      WideAt(s[1..], j - 1);
    }
  }

  /** In a chain each record lies where the sizes of those before it put it, linked to the next. */
  lemma {:induction false} ChainAt(laid: Layout, s: seq<Adapter>, at: nat, last: Val, i: nat)
    requires Chain(laid, s, at, last) && i < |s|
    ensures laid(s[i], at + StartOf(s, i), if i == |s| - 1 then last else Ptr(at + StartOf(s, i + 1)))
    decreases |s|
  {
    StartShift(s, i);
    if i > 0 {
      StartShift(s, i - 1);
      ChainAt(laid, s[1..], at + SizeOf(s[0]), last, i - 1);
    }
  }

  /** The parts of a record do not overlap, and the record lies within the buffer. */
  lemma PartsDisjoint(s: seq<Adapter>, i: nat, lo: nat)
    requires i < |s| && lo == StartOf(s, i)
    ensures lo + RECORD == NameAt(lo) < DescriptionAt(s[i], lo) < FriendlyAt(s[i], lo) < lo + SizeOf(s[i])
    ensures lo + SizeOf(s[i]) <= TotalSize(s)
  {
    StartsGrow(s, i, |s|);
    StartAtEnd(s);
  }

  /** The regions of two records do not overlap. */
  lemma RegionsDisjoint(s: seq<Adapter>, i: nat, j: nat)
    requires i < j < |s|
    ensures StartOf(s, i) + SizeOf(s[i]) <= StartOf(s, j)
  {
    StartsGrow(s, i, j);
  }
}
