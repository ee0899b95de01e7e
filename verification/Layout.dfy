/** The bytes of the format, value by value, and how many there are. */
module Layout {
  import opened Basics
  import opened Remainders
  import opened Bytes
  import opened Codec

  /** One byte string after the other. */
  ghost function Concat(pieces: seq<seq<byte>>): seq<byte> {
    if pieces == [] then [] else pieces[0] + Concat(pieces[1..])
  }

  // ---------------------------------------------------------------- numbers

  lemma {:induction false} LittleEndianByte(n: nat, width: nat, k: nat)
    requires k < width
    ensures LittleEndian(n, width)[k] as nat == n / Pow256(k) % 256
  {
    if k > 0 {
      LittleEndianByte(n / 256, width - 1, k - 1);
      DivideTwice(n, 256, Pow256(k - 1));
    }
  }

  /** Byte k of a number of the given width is its digit in base 256, the highest first. */
  lemma NumberBytes(n: nat, width: nat, version: nat, k: nat)
    requires k < width
    ensures |Encode(Scalar(width), Number(n), version)| == width
    ensures Encode(Scalar(width), Number(n), version)[k] as nat == n / Pow256(width - 1 - k) % 256
  {
    LittleEndianByte(n, width, width - 1 - k);
  }

  /** An enumeration is one byte. */
  lemma EnumByte(n: nat, version: nat)
    ensures Encode(Enum, Number(n), version) == [(n % 256) as byte]
  {
    assert LittleEndian(n % 256, 1) == [(n % 256) as byte];
  }

  // ------------------------------------------------------------- containers

  /** The encodings of the elements, in the order in which they are written. */
  ghost function Pieces(e: Schema, items: seq<Value>, version: nat): (r: seq<seq<byte>>)
    ensures |r| == |items| && forall i :: 0 <= i < |items| ==> r[i] == Encode(e, items[i], version)
  {
    seq(|items|, i requires 0 <= i < |items| => Encode(e, items[i], version))
  }

  lemma {:induction false} ItemsInOrder(e: Schema, items: seq<Value>, version: nat)
    ensures EncodeItems(e, items, version) == Concat(Pieces(e, items, version))
    decreases |items|
  {
    if items != [] {
      ItemsInOrder(e, items[1..], version);
      assert Pieces(e, items, version)[1..] == Pieces(e, items[1..], version);
    }
  }

  lemma ContainerParts(s: Schema, v: Value, version: nat)
    requires s.Container?
    ensures Encode(s, v, version)
         == BigEndian(|ItemsOf(v)|, COUNT_WIDTH) + Concat(Pieces(s.elem, WriteOrder(s.kind, ItemsOf(v)), version))
  {
    ItemsInOrder(s.elem, WriteOrder(s.kind, ItemsOf(v)), version);
  }

  lemma ArrayParts(s: Schema, v: Value, version: nat)
    requires s.FixedArray? || s.RawArray?
    ensures var pieces := Pieces(s.elem, ItemsOf(v), version);
            Encode(s, v, version)
              == if s.RawArray? then Concat(pieces) else BigEndian(|ItemsOf(v)|, COUNT_WIDTH) + Concat(pieces)
  {
    ItemsInOrder(s.elem, ItemsOf(v), version);
  }

  /** The bytes b are n in eight bytes, the highest first, and then the body. */
  ghost predicate CountThenBody(b: seq<byte>, n: nat, body: seq<byte>) {
    && |b| >= 8 && b[8..] == body && FromBigEndian(b[..8]) == n
    && forall k :: 0 <= k < 8 ==> b[k] as nat == n / Pow256(7 - k) % 256
  }

  lemma CountFirst(n: nat, body: seq<byte>)
    requires n < 0x8000_0000
    ensures CountThenBody(BigEndian(n, COUNT_WIDTH) + body, n, body)
  {
    var b := BigEndian(n, 8) + body;
    Pow256AtLeast(8);
    BigEndianRoundTrip(n, 8);
    assert b[..8] == BigEndian(n, 8);
    forall k | 0 <= k < 8 ensures b[k] as nat == n / Pow256(7 - k) % 256 {
      LittleEndianByte(n, 8, 7 - k);
    }
  }

  lemma WrittenPieces(kind: ContainerKind, e: Schema, items: seq<Value>, version: nat) returns (pieces: seq<seq<byte>>)
    ensures pieces == Pieces(e, WriteOrder(kind, items), version) && |pieces| == |items|
    ensures forall i :: 0 <= i < |pieces| ==>
              pieces[i] == Encode(e, items[if kind == Stack then |items| - 1 - i else i], version)
  {
    pieces := Pieces(e, WriteOrder(kind, items), version);
  }

  /**
   * A container starts with eight bytes that hold its number of elements, the highest byte first. The
   * encodings of the elements follow: of a stack from the top, of any other from the front.
   */
  lemma ContainerLayout(s: Schema, v: Value, version: nat) returns (b: seq<byte>, pieces: seq<seq<byte>>)
    requires s.Container? && v.Items? && |v.items| < 0x8000_0000
    ensures b == Encode(s, v, version) && |b| >= 8 && b[8..] == Concat(pieces)
    ensures FromBigEndian(b[..8]) == |v.items| && forall k :: 0 <= k < 8 ==> b[k] as nat == |v.items| / Pow256(7 - k) % 256
    ensures |pieces| == |v.items|
    ensures forall i :: 0 <= i < |pieces| ==>
              pieces[i] == Encode(s.elem, v.items[if s.kind == Stack then |v.items| - 1 - i else i], version)
  {
    ContainerParts(s, v, version);
    b := Encode(s, v, version);
    pieces := WrittenPieces(s.kind, s.elem, v.items, version);
    CountFirst(|v.items|, Concat(pieces));
  }

  /** A fixed array has the count too, a raw array has only the elements. */
  lemma ArrayLayout(s: Schema, v: Value, version: nat) returns (b: seq<byte>, pieces: seq<seq<byte>>)
    requires (s.FixedArray? || s.RawArray?) && v.Items? && |v.items| < 0x8000_0000
    ensures b == Encode(s, v, version)
    ensures s.RawArray? ==> b == Concat(pieces)
    ensures s.FixedArray? ==>
              && |b| >= 8 && b[8..] == Concat(pieces) && FromBigEndian(b[..8]) == |v.items|
              && forall k :: 0 <= k < 8 ==> b[k] as nat == |v.items| / Pow256(7 - k) % 256
    ensures |pieces| == |v.items| && forall i :: 0 <= i < |pieces| ==> pieces[i] == Encode(s.elem, v.items[i], version)
  {
    ArrayParts(s, v, version);
    b, pieces := Encode(s, v, version), Pieces(s.elem, v.items, version);
    CountFirst(|v.items|, Concat(pieces));
  }

  // ------------------------------------------------------ pairs and records

  /** A pair is its first and then its second. */
  lemma PairLayout(s: Schema, v: Value, version: nat)
    requires s.Pair? && v.Both?
    ensures Encode(s, v, version) == Encode(s.first, v.a, version) + Encode(s.second, v.b, version)
  {
  }

  /** A record is its properties in order; of one newer than the version there is nothing. */
  lemma RecordLayout(s: Schema, v: Value, version: nat) returns (pieces: seq<seq<byte>>)
    requires s.Record? && v.Items? && |v.items| == |s.fields|
    ensures Encode(s, v, version) == Concat(pieces)
    ensures |pieces| == |s.fields|
    ensures forall i :: 0 <= i < |pieces| ==>
              pieces[i] == if s.fields[i].since <= version then Encode(s.fields[i].schema, v.items[i], version) else []
  {
    pieces := FieldsInOrder(s.fields, v.items, version);
  }

  lemma {:induction false} FieldsInOrder(fs: seq<Field>, values: seq<Value>, version: nat) returns (pieces: seq<seq<byte>>)
    requires |fs| == |values|
    ensures EncodeFields(fs, values, version) == Concat(pieces) && |pieces| == |fs|
    ensures forall i :: 0 <= i < |fs| ==> pieces[i] == EncodeField(fs[i], values[i], version)
    decreases |fs|
  {
    if fs == [] { return []; }
    var later := FieldsInOrder(fs[1..], values[1..], version);
    pieces := [EncodeField(fs[0], values[0], version)] + later;
    assert pieces[1..] == later;
  }

  // ------------------------------------------------------------------- size

  /** How many bytes a value takes. */
  ghost function ByteCount(s: Schema, v: Value, version: nat): nat
    decreases s, 0, 0
  {
    match s
    case Scalar(w) => w
    case Enum => 1
    case Container(_, e) => 8 + ItemBytes(e, ItemsOf(v), version)
    case FixedArray(e, _) => 8 + ItemBytes(e, ItemsOf(v), version)
    case RawArray(e, _) => ItemBytes(e, ItemsOf(v), version)
    case Pair(x, y) => ByteCount(x, FirstOf(v), version) + ByteCount(y, SecondOf(v), version)
    case Record(fs) => FieldBytes(fs, ItemsOf(v), version)
  }

  ghost function ItemBytes(e: Schema, items: seq<Value>, version: nat): nat
    decreases e, 1, |items|
  {
    if items == [] then 0 else ByteCount(e, items[0], version) + ItemBytes(e, items[1..], version)
  }

  ghost function FieldBytes(fs: seq<Field>, values: seq<Value>, version: nat): nat
    decreases fs, 1, 0
  {
    if fs == [] || values == [] then 0
    else FieldByteCount(fs[0], values[0], version) + FieldBytes(fs[1..], values[1..], version)
  }

  ghost function FieldByteCount(f: Field, v: Value, version: nat): nat
    decreases f
  {
    if f.since <= version then ByteCount(f.schema, v, version) else 0
  }

  lemma {:induction false} EncodedSize(s: Schema, v: Value, version: nat)
    ensures |Encode(s, v, version)| == ByteCount(s, v, version)
    decreases s, 0, 0
  {
    match s
    case Scalar(_) =>
    case Enum =>
    case Container(kind, e) =>
      ItemsSize(e, WriteOrder(kind, ItemsOf(v)), version);
      if kind.Stack? { ReversedBytes(e, ItemsOf(v), version); }
    case FixedArray(e, _) => ItemsSize(e, ItemsOf(v), version);
    case RawArray(e, _) => ItemsSize(e, ItemsOf(v), version);
    case Pair(x, y) =>
      EncodedSize(x, FirstOf(v), version);
      EncodedSize(y, SecondOf(v), version);
    case Record(fs) => FieldsSize(fs, ItemsOf(v), version);
  }

  lemma {:induction false} ItemsSize(e: Schema, items: seq<Value>, version: nat)
    ensures |EncodeItems(e, items, version)| == ItemBytes(e, items, version)
    decreases e, 1, |items|
  {
    if items != [] {
      EncodedSize(e, items[0], version);
      ItemsSize(e, items[1..], version);
    }
  }

  lemma {:induction false} FieldsSize(fs: seq<Field>, values: seq<Value>, version: nat)
    ensures |EncodeFields(fs, values, version)| == FieldBytes(fs, values, version)
    decreases fs, 1, 0
  {
    if fs != [] && values != [] {
      FieldSize(fs[0], values[0], version);
      FieldsSize(fs[1..], values[1..], version);
    }
  }

  lemma {:induction false} FieldSize(f: Field, v: Value, version: nat)
    ensures |EncodeField(f, v, version)| == FieldByteCount(f, v, version)
    decreases f
  {
    EncodedSize(f.schema, v, version);
  }

  lemma {:induction false} BytesAppend(e: Schema, items: seq<Value>, v: Value, version: nat)
    ensures ItemBytes(e, items + [v], version) == ItemBytes(e, items, version) + ByteCount(e, v, version)
    decreases |items|
  {
    if items == [] {
      assert (items + [v])[1..] == [];
    } else {
      assert (items + [v])[1..] == items[1..] + [v];
      BytesAppend(e, items[1..], v, version);
    }
  }

  lemma {:induction false} ReversedBytes(e: Schema, items: seq<Value>, version: nat)
    ensures ItemBytes(e, Reverse(items), version) == ItemBytes(e, items, version)
    decreases |items|
  {
    if items != [] {
      ReversedBytes(e, items[1..], version);
      BytesAppend(e, Reverse(items[1..]), items[0], version);
    }
  }

  // ----------------------------------------------- reading over what was there

  /** A number takes the next bytes, the highest first, whatever was there. */
  lemma NumberRead(width: nat, stale: Value, m: Mode, b: seq<byte>)
    requires |b| >= width
    ensures Decode(Scalar(width), stale, m, b) == (Number(FromBigEndian(b[..width])), b[width..])
  {
  }

  /**
   * Too few bytes for a number: none is consumed. A big-endian machine keeps the old number; on
   * a little-endian one its bytes come out in the opposite order.
   */
  lemma NumberCutShort(width: nat, n: nat, m: Mode, b: seq<byte>) returns (r: nat)
    requires |b| < width && n < Pow256(width)
    ensures Decode(Scalar(width), Number(n), m, b) == (Number(r), b)
    ensures if m.littleEndian then BigEndian(r, width) == LittleEndian(n, width) else r == n
  {
    var image := NativeBytes(n, width, m.littleEndian);
    r := FromBigEndian(image);
    BigEndianRoundTrip(n, width);
    LittleEndianOfBytes(Reverse(image));
    ReverseTwice(image);
  }

  /** Too few bytes for a count: it is read as zero and none is consumed. */
  lemma CountCutShort(kind: ContainerKind, e: Schema, prior: seq<Value>, m: Mode, b: seq<byte>)
    requires |b| < 8
    ensures Decode(Container(kind, e), Items(prior), m, b)
         == (Items(if kind == Vector || kind == Stack then [] else prior), b)
  {
    ZeroImage(8, m.littleEndian);
    DecodeContainer(kind, e, Items(prior), m, b);
    assert ReadNumber(b, COUNT_WIDTH, 0, m) == (0, b);
    assert DecodeItems(e, Targets(kind, Items(prior), 0, e), m, b) == ([], b) by {
      assert Targets(kind, Items(prior), 0, e) == [];
    }
    NothingRead(kind, prior);
  }

  lemma NothingRead(kind: ContainerKind, prior: seq<Value>)
    ensures Assemble(kind, Items(prior), []) == Items(if kind == Vector || kind == Stack then [] else prior)
  {
    assert [] + prior == prior;
  }

  /** Elements that are no longer there are read as zero. */
  lemma {:induction false} ElementsCutShort(width: nat, n: nat, m: Mode)
    requires width > 0
    ensures DecodeItems(Scalar(width), seq(n, _ => Fresh(Scalar(width))), m, []) == (seq(n, _ => Number(0)), [])
  {
    var targets := seq(n, _ => Fresh(Scalar(width)));
    if n > 0 {
      ElementsCutShort(width, n - 1, m);
      ZeroImage(width, m.littleEndian);
      assert targets[1..] == seq(n - 1, _ => Fresh(Scalar(width)));
      assert [Number(0)] + seq(n - 1, _ => Number(0)) == seq(n, _ => Number(0));
    }
  }

  /** Vectors and stacks are replaced, forward lists filled in front, and the others that keep every element appended to. */
  lemma ReadOver(kind: ContainerKind, prior: seq<Value>, read: seq<Value>)
    ensures kind == Vector ==> Assemble(kind, Items(prior), read) == Items(read)
    ensures kind == Stack ==>
              var r := ItemsOf(Assemble(kind, Items(prior), read));
              |r| == |read| && forall i :: 0 <= i < |r| ==> r[i] == read[|read| - 1 - i]
    ensures kind == ForwardList ==> Assemble(kind, Items(prior), read) == Items(read + prior)
    ensures kind in {List, Queue, PriorityQueue, Multiset, Multimap} ==>
              Assemble(kind, Items(prior), read) == Items(prior + read)
  {
    if kind == Stack {
      assert Assemble(kind, Items(prior), read) == Items(Reverse(read));
    } else if kind != Set && kind != Map {
      InsertAllNew(kind, prior, read);
    }
  }

  /** A set keeps what it had and gets each new element once. */
  lemma {:induction false} ReadOverSet(prior: seq<Value>, read: seq<Value>)
    requires Distinct(prior)
    ensures var r := InsertAll(Set, prior, read);
            && Assemble(Set, Items(prior), read) == Items(r)
            && prior <= r && Distinct(r) && forall x :: x in r <==> x in prior || x in read
    decreases |read|
  {
    if read != [] { ReadOverSet(Insert(Set, prior, read[0]), read[1..]); }
  }

  /** A map keeps the values of the keys it had and gets the new keys, each once. */
  lemma {:induction false} ReadOverMap(prior: seq<Value>, read: seq<Value>)
    requires Distinct(Keys(prior))
    ensures var r := InsertAll(Map, prior, read);
            && Assemble(Map, Items(prior), read) == Items(r)
            && prior <= r && Distinct(Keys(r)) && forall k :: k in Keys(r) <==> k in Keys(prior) || k in Keys(read)
    decreases |read|
  {
    if read != [] {
      KeysInsert(prior, read[0]);
      ReadOverMap(Insert(Map, prior, read[0]), read[1..]);
      assert Keys(read)[0] == FirstOf(read[0]) && Keys(read)[1..] == Keys(read[1..]);
    }
  }

  /** Of a new key the first value counts. */
  lemma {:induction false} FirstValueCounts(prior: seq<Value>, read: seq<Value>, i: nat)
    requires Distinct(Keys(prior)) && i < |read| && FirstOf(read[i]) !in Keys(prior)
    requires forall j :: 0 <= j < i ==> FirstOf(read[j]) != FirstOf(read[i])
    ensures read[i] in InsertAll(Map, prior, read)
    decreases |read|
  {
    var more := Insert(Map, prior, read[0]);
    KeysInsert(prior, read[0]);
    if i == 0 {
      ReadOverMap(more, read[1..]);
      assert more[|prior|] == read[0];
    } else {
      FirstValueCounts(more, read[1..], i - 1);
    }
  }

  lemma KeysInsert(items: seq<Value>, v: Value)
    ensures var more := Insert(Map, items, v);
            && items <= more && (Distinct(Keys(items)) ==> Distinct(Keys(more))) && (FirstOf(v) !in Keys(items) ==> more == items + [v])
            && forall k :: k in Keys(more) <==> k in Keys(items) || k == FirstOf(v)
  {
    if FirstOf(v) !in Keys(items) { assert Keys(items + [v]) == Keys(items) + [FirstOf(v)]; }
  }
}
