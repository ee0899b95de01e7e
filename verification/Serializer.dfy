/** The serializer and deserializer on top of the buffered file writer and reader. */
module Serializer {
  import opened Basics
  import opened Bytes
  import opened EndianConversion
  import opened FileBuffers
  import opened Codec
  import opened Layout

  const HEADER_WIDTH: nat := 8

  /** Every scalar of s is one the buffers can hold. */
  ghost predicate Sized(s: Schema) {
    match s
    case Scalar(w) => 0 < w <= 8
    case Enum => true
    case Container(_, e) => Sized(e)
    case FixedArray(e, _) => Sized(e)
    case RawArray(e, _) => Sized(e)
    case Pair(x, y) => Sized(x) && Sized(y)
    case Record(fs) => forall i :: 0 <= i < |fs| ==> Sized(fs[i].schema)
  }

  /** Swapping on little-endian machines makes the stored form the same everywhere. */
  method StoredForm(n: nat, width: nat, littleEndian: bool) returns (s: seq<byte>)
    ensures s == BigEndian(n, width)
  {
    var image := NativeBytes(n, width, littleEndian);
    var bytes := new byte[width](i requires 0 <= i < width => image[i]);
    assert bytes[..] == image;
    if littleEndian { SwapEndianInPlace(bytes); }
    s := bytes[..];
  }

  /** Reading undoes the same swap. */
  method FromStoredForm(s: seq<byte>, littleEndian: bool) returns (n: nat)
    ensures n == FromBigEndian(s)
  {
    var bytes := new byte[|s|](i requires 0 <= i < |s| => s[i]);
    assert bytes[..] == s;
    if littleEndian { SwapEndianInPlace(bytes); }
    n := FromNativeBytes(bytes[..], littleEndian);
  }

  lemma {:induction false} EncodeItemsAppend(e: Schema, items: seq<Value>, v: Value, version: nat)
    ensures EncodeItems(e, items + [v], version) == EncodeItems(e, items, version) + Encode(e, v, version)
    decreases |items|
  {
    if items == [] {
      assert (items + [v])[1..] == [];
    } else {
      assert (items + [v])[1..] == items[1..] + [v];
      EncodeItemsAppend(e, items[1..], v, version);
    }
  }

  /** Writing element i after the ones before it. */
  lemma NextItem(e: Schema, items: seq<Value>, i: nat, version: nat, start: seq<byte>, now: seq<byte>)
    requires i < |items| && now == start + EncodeItems(e, items[..i], version)
    ensures now + Encode(e, items[i], version) == start + EncodeItems(e, items[..i + 1], version)
  {
    var before, last, after := items[..i], items[i], items[..i + 1];
    assert after == before + [last];
    EncodeItemsAppend(e, before, last, version);
    Associative(start, EncodeItems(e, before, version), Encode(e, last, version));
  }

  ghost predicate Properties(fs: seq<Field>, values: seq<Value>) {
    |fs| == |values| && forall i :: 0 <= i < |fs| ==> Sized(fs[i].schema) && HasType(fs[i].schema, values[i])
  }

  lemma LaterProperties(fs: seq<Field>, values: seq<Value>)
    requires Properties(fs, values) && fs != []
    ensures Properties(fs[1..], values[1..])
  {
  }

  class Serializer {
    const writer: BufferWriter
    const version: nat
    const littleEndian: bool

    ghost predicate Ready()
      reads this, writer, writer.buffer
    {
      writer.Valid() && writer.isOpen && writer.buffer.Length >= 8
    }

    /** Opens the file and writes the version in native byte order. */
    constructor (writer: BufferWriter, version: nat, littleEndian: bool)
      requires writer.Valid() && writer.isOpen && writer.buffer.Length >= 8
      modifies writer, writer.buffer
      ensures this.writer == writer && this.version == version && this.littleEndian == littleEndian && Ready()
      ensures writer.Written() == old(writer.Written()) + NativeBytes(version, HEADER_WIDTH, littleEndian)
    {
      this.writer, this.version, this.littleEndian := writer, version, littleEndian;
      new;
      var ok := writer.Write(NativeBytes(version, HEADER_WIDTH, littleEndian));
    }

    method Write(s: Schema, v: Value)
      requires Ready() && Sized(s) && HasType(s, v)
      modifies writer, writer.buffer
      ensures Ready() && writer.Written() == old(writer.Written()) + Encode(s, v, version)
      decreases s, 1
    {
      match s
      case Scalar(w) => WriteNumber(v.n, w);
      case Enum => WriteNumber(v.n % 256, 1);
      case Container(kind, e) => WriteCounted(kind, e, v.items);
      case FixedArray(e, n) => WriteCounted(Vector, e, v.items);
      case RawArray(e, n) => WriteInOrder(e, v.items);
      case Pair(x, y) => WritePair(x, y, v.a, v.b);
      case Record(fs) => WriteProperties(fs, v.items);
    }

    method WriteCounted(kind: ContainerKind, e: Schema, items: seq<Value>)
      requires Ready() && Sized(e) && forall i :: 0 <= i < |items| ==> HasType(e, items[i])
      modifies writer, writer.buffer
      ensures Ready()
      ensures writer.Written()
           == old(writer.Written()) + (BigEndian(|items|, COUNT_WIDTH) + EncodeItems(e, WriteOrder(kind, items), version))
      decreases e, 3
    {
      Associative(writer.Written(), BigEndian(|items|, COUNT_WIDTH), EncodeItems(e, WriteOrder(kind, items), version));
      WriteNumber(|items|, COUNT_WIDTH);
      if kind.Stack? { WriteFromTop(e, items); } else { WriteInOrder(e, items); }
    }

    method WritePair(x: Schema, y: Schema, a: Value, b: Value)
      requires Ready() && Sized(x) && Sized(y) && HasType(x, a) && HasType(y, b)
      modifies writer, writer.buffer
      ensures Ready()
      ensures writer.Written() == old(writer.Written()) + (Encode(x, a, version) + Encode(y, b, version))
      decreases Pair(x, y), 0
    {
      Associative(writer.Written(), Encode(x, a, version), Encode(y, b, version));
      Write(x, a);
      Write(y, b);
    }

    method WriteNumber(n: nat, width: nat)
      requires Ready() && width <= 8
      modifies writer, writer.buffer
      ensures Ready() && writer.Written() == old(writer.Written()) + BigEndian(n, width)
    {
      var bytes := StoredForm(n, width, littleEndian);
      var ok := writer.Write(bytes);
    }

    method WriteInOrder(e: Schema, items: seq<Value>)
      requires Ready() && Sized(e) && forall i :: 0 <= i < |items| ==> HasType(e, items[i])
      modifies writer, writer.buffer
      ensures Ready() && writer.Written() == old(writer.Written()) + EncodeItems(e, items, version)
      decreases e, 2
    {
      ghost var start := writer.Written();
      for i := 0 to |items|
        invariant Ready() && writer.Written() == start + EncodeItems(e, items[..i], version)
      {
        NextItem(e, items, i, version, start, writer.Written());
        Write(e, items[i]);
      }
      assert items[..|items|] == items;
    }

    /** A copy of the stack is popped until it is empty. */
    method WriteFromTop(e: Schema, items: seq<Value>)
      requires Ready() && Sized(e) && forall i :: 0 <= i < |items| ==> HasType(e, items[i])
      modifies writer, writer.buffer
      ensures Ready() && writer.Written() == old(writer.Written()) + EncodeItems(e, Reverse(items), version)
      decreases e, 2
    {
      ghost var start, order, i := writer.Written(), Reverse(items), 0;
      var copy := items;
      assert order[..0] == [];
      while copy != []
        invariant Ready() && copy <= items && i + |copy| == |items|
        invariant writer.Written() == start + EncodeItems(e, order[..i], version)
        decreases |copy|
      {
        var top := copy[|copy| - 1];
        assert top == items[|copy| - 1] == order[i];
        NextItem(e, order, i, version, start, writer.Written());
        Write(e, top);
        copy, i := copy[..|copy| - 1], i + 1;
      }
      assert order[..i] == order;
    }

    method WriteProperties(fs: seq<Field>, values: seq<Value>)
      requires Ready() && Properties(fs, values)
      modifies writer, writer.buffer
      ensures Ready() && writer.Written() == old(writer.Written()) + EncodeFields(fs, values, version)
      decreases fs, 0
    {
      if fs != [] {
        LaterProperties(fs, values);
        Associative(writer.Written(), EncodeField(fs[0], values[0], version), EncodeFields(fs[1..], values[1..], version));
        WriteProperty(fs[0], values[0]);
        WriteProperties(fs[1..], values[1..]);
      }
    }

    method WriteProperty(f: Field, v: Value)
      requires Ready() && Sized(f.schema) && HasType(f.schema, v)
      modifies writer, writer.buffer
      ensures Ready() && writer.Written() == old(writer.Written()) + EncodeField(f, v, version)
      decreases f, 0
    {
      if version >= f.since { Write(f.schema, v); }
    }
  }

  // ---------------------------------------------------------------- reading

  lemma {:induction false} InsertAllAppend(kind: ContainerKind, items: seq<Value>, vs: seq<Value>, v: Value)
    ensures InsertAll(kind, items, vs + [v]) == Insert(kind, InsertAll(kind, items, vs), v)
    decreases |vs|
  {
    if vs == [] {
      assert (vs + [v])[1..] == [];
    } else {
      assert (vs + [v])[1..] == vs[1..] + [v];
      InsertAllAppend(kind, Insert(kind, items, vs[0]), vs[1..], v);
    }
  }

  /** After `read`, what is left of decoding `targets` from b is decoding `later` from `left`. */
  ghost predicate Midway(e: Schema, targets: seq<Value>, m: Mode, b: seq<byte>,
                         read: seq<Value>, later: seq<Value>, left: seq<byte>) {
    var (others, rest) := DecodeItems(e, later, m, left);
    DecodeItems(e, targets, m, b) == (read + others, rest)
  }

  lemma MidwayStart(e: Schema, targets: seq<Value>, m: Mode, b: seq<byte>)
    ensures Midway(e, targets, m, b, [], targets, b)
  {
    var r := DecodeItems(e, targets, m, b);
    assert [] + r.0 == r.0;
  }

  lemma MidwayEnd(e: Schema, targets: seq<Value>, m: Mode, b: seq<byte>, read: seq<Value>, left: seq<byte>)
    requires Midway(e, targets, m, b, read, [], left)
    ensures DecodeItems(e, targets, m, b) == (read, left)
  {
    assert read + [] == read;
  }

  lemma MidwayStep(e: Schema, targets: seq<Value>, m: Mode, b: seq<byte>,
                   read: seq<Value>, later: seq<Value>, left: seq<byte>)
    requires Midway(e, targets, m, b, read, later, left) && later != []
    ensures var r := Decode(e, later[0], m, left);
            Midway(e, targets, m, b, read + [r.0], later[1..], r.1)
  {
    var r := Decode(e, later[0], m, left);
    Associative(read, [r.0], DecodeItems(e, later[1..], m, r.1).0);
  }

  lemma LaterTargets(targets: seq<Value>, i: nat)
    requires i < |targets|
    ensures targets[i..] != [] && targets[i..][0] == targets[i] && targets[i..][1..] == targets[i + 1..]
  {
  }

  lemma PutOver(items: seq<Value>, targets: seq<Value>, i: nat, v: Value)
    requires |items| == |targets| && i < |items| && items[i..] == targets[i..]
    ensures items[i := v][..i + 1] == items[..i] + [v] && items[i := v][i + 1..] == targets[i + 1..]
    ensures targets[i..][1..] == targets[i + 1..]
  {
    forall k | i < k < |items| ensures items[k] == targets[k] {
      assert items[k] == items[i..][k - i];
    }
  }

  lemma PutAfter(read: seq<Value>, prior: seq<Value>, v: Value)
    ensures (read + prior)[..|read|] + [v] + (read + prior)[|read|..] == read + [v] + prior
  {
  }

  lemma ReversePushed(read: seq<Value>, v: Value)
    ensures Reverse(read + [v]) == [v] + Reverse(read)
  {
  }

  class Deserializer {
    const reader: BufferReader
    var version: nat
    const littleEndian: bool

    ghost predicate Ready()
      reads this, reader, reader.buffer
    {
      reader.Valid() && reader.buffer.Length >= 8
    }

    /** The version comes from the file; without a readable header the given one is kept. */
    constructor (reader: BufferReader, version: nat, littleEndian: bool)
      requires reader.Valid() && reader.buffer.Length >= 8
      modifies reader, reader.buffer
      ensures this.reader == reader && this.littleEndian == littleEndian && Ready()
      ensures var b := old(reader.Remaining());
              if |b| >= HEADER_WIDTH
              then this.version == FromNativeBytes(b[..HEADER_WIDTH], littleEndian) && reader.Remaining() == b[HEADER_WIDTH..]
              else this.version == version && reader.Remaining() == b
    {
      this.reader, this.version, this.littleEndian := reader, version, littleEndian;
      new;
      var ok, bytes := reader.Read(HEADER_WIDTH);
      if ok { this.version := FromNativeBytes(bytes, littleEndian); }
    }

    /** The version read from the file and this machine's byte order. */
    function Setting(): Mode
      reads this
    {
      Mode(version, littleEndian)
    }

    method Read(s: Schema, prior: Value) returns (v: Value)
      requires Ready() && Sized(s)
      modifies reader, reader.buffer
      ensures Ready() && Decode(s, prior, Setting(), old(reader.Remaining())) == (v, reader.Remaining())
      decreases s, 1
    {
      match s
      case Scalar(w) =>
        var n := ReadScalar(w, NumberOf(prior));
        v := Number(n);
      case Enum =>
        var n := ReadScalar(1, 0);
        v := Number(n);
      case Container(kind, e) => v := ReadContainer(kind, e, prior);
      case FixedArray(e, n) =>
        var count := ReadScalar(COUNT_WIDTH, 0);
        var items := ReadOver(e, Resize(ItemsOf(prior), n, Fresh(e)));
        v := Items(items);
      case RawArray(e, n) =>
        var items := ReadOver(e, Resize(ItemsOf(prior), n, Fresh(e)));
        v := Items(items);
      case Pair(x, y) =>
        var a := Read(x, FirstOf(prior));
        var b := Read(y, SecondOf(prior));
        v := Both(a, b);
      case Record(fs) =>
        var items := ReadProperties(fs, Resize(ItemsOf(prior), |fs|, Number(0)));
        v := Items(items);
    }

    method ReadContainer(kind: ContainerKind, e: Schema, prior: Value) returns (v: Value)
      requires Ready() && Sized(e)
      modifies reader, reader.buffer
      ensures Ready()
      ensures Decode(Container(kind, e), prior, Setting(), old(reader.Remaining())) == (v, reader.Remaining())
      decreases e, 4
    {
      DecodeContainer(kind, e, prior, Setting(), reader.Remaining());
      var n := ReadScalar(COUNT_WIDTH, 0);
      v := ReadElements(kind, e, prior, n);
    }

    method ReadElements(kind: ContainerKind, e: Schema, prior: Value, n: nat) returns (v: Value)
      requires Ready() && Sized(e)
      modifies reader, reader.buffer
      ensures Ready()
      ensures var r := DecodeItems(e, Targets(kind, prior, n, e), Setting(), old(reader.Remaining()));
              v == Assemble(kind, prior, r.0) && reader.Remaining() == r.1
      decreases e, 3
    {
      if kind.Vector? {
        var items := ReadOver(e, Resize(ItemsOf(prior), n, Fresh(e)));
        v := Items(items);
      } else if kind.Stack? {
        v := ReadStack(e, n);
      } else if kind.ForwardList? {
        v := ReadForward(e, ItemsOf(prior), n);
      } else {
        v := ReadInto(kind, e, ItemsOf(prior), n);
      }
    }

    /** When the bytes run out the target keeps its memory image, which is then swapped like any other. */
    method ReadScalar(width: nat, stale: nat) returns (n: nat)
      requires Ready() && 0 < width <= 8
      modifies reader, reader.buffer
      ensures Ready() && (n, reader.Remaining()) == ReadNumber(old(reader.Remaining()), width, stale, Setting())
    {
      var ok, bytes := reader.Read(width);
      if !ok { bytes := NativeBytes(stale, width, littleEndian); }
      n := FromStoredForm(bytes, littleEndian);
    }

    /** Reads each element over the one already in its place. */
    method ReadOver(e: Schema, targets: seq<Value>) returns (items: seq<Value>)
      requires Ready() && Sized(e)
      modifies reader, reader.buffer
      ensures Ready() && DecodeItems(e, targets, Setting(), old(reader.Remaining())) == (items, reader.Remaining())
      decreases e, 2
    {
      ghost var b, m := reader.Remaining(), Setting();
      items := targets;
      assert targets[0..] == targets && items[..0] == [];
      MidwayStart(e, targets, m, b);
      for i := 0 to |targets|
        invariant Ready() && |items| == |targets| && items[i..] == targets[i..]
        invariant Midway(e, targets, m, b, items[..i], targets[i..], reader.Remaining())
      {
        MidwayStep(e, targets, m, b, items[..i], targets[i..], reader.Remaining());
        assert items[i] == items[i..][0] == targets[i..][0];
        var val := Read(e, items[i]);
        PutOver(items, targets, i, val);
        items := items[i := val];
      }
      assert items[..|targets|] == items && targets[|targets|..] == [];
      MidwayEnd(e, targets, m, b, items, reader.Remaining());
    }

    /** Reads fresh elements and inserts them one by one. */
    method ReadInto(kind: ContainerKind, e: Schema, prior: seq<Value>, n: nat) returns (v: Value)
      requires Ready() && Sized(e) && !kind.Vector? && !kind.Stack? && !kind.ForwardList?
      modifies reader, reader.buffer
      ensures Ready()
      ensures var r := DecodeItems(e, Resize([], n, Fresh(e)), Setting(), old(reader.Remaining()));
              v == Items(InsertAll(kind, prior, r.0)) && reader.Remaining() == r.1
      decreases e, 2
    {
      ghost var b, m, targets, read := reader.Remaining(), Setting(), Resize([], n, Fresh(e)), [];
      var items := prior;
      assert targets[0..] == targets;
      MidwayStart(e, targets, m, b);
      for i := 0 to n
        invariant Ready() && items == InsertAll(kind, prior, read)
        invariant Midway(e, targets, m, b, read, targets[i..], reader.Remaining())
      {
        LaterTargets(targets, i);
        MidwayStep(e, targets, m, b, read, targets[i..], reader.Remaining());
        var val := Read(e, Fresh(e));
        InsertAllAppend(kind, prior, read, val);
        read := read + [val];
        items := Insert(kind, items, val);
      }
      assert targets[n..] == [];
      MidwayEnd(e, targets, m, b, read, reader.Remaining());
      v := Items(items);
    }

    /** Each element goes right after the one before it, in front of what was there. */
    method ReadForward(e: Schema, prior: seq<Value>, n: nat) returns (v: Value)
      requires Ready() && Sized(e)
      modifies reader, reader.buffer
      ensures Ready()
      ensures var r := DecodeItems(e, Resize([], n, Fresh(e)), Setting(), old(reader.Remaining()));
              v == Items(r.0 + prior) && reader.Remaining() == r.1
      decreases e, 2
    {
      ghost var b, m, targets, read := reader.Remaining(), Setting(), Resize([], n, Fresh(e)), [];
      var items := prior;
      assert targets[0..] == targets && [] + prior == prior;
      MidwayStart(e, targets, m, b);
      for i := 0 to n
        invariant Ready() && |read| == i && items == read + prior
        invariant Midway(e, targets, m, b, read, targets[i..], reader.Remaining())
      {
        LaterTargets(targets, i);
        MidwayStep(e, targets, m, b, read, targets[i..], reader.Remaining());
        var val := Read(e, Fresh(e));
        PutAfter(read, prior, val);
        items := items[..i] + [val] + items[i..];
        read := read + [val];
      }
      assert targets[n..] == [];
      MidwayEnd(e, targets, m, b, read, reader.Remaining());
      v := Items(items);
    }

    /** The elements come top first and are put at the front of a temporary deque. */
    method ReadStack(e: Schema, n: nat) returns (v: Value)
      requires Ready() && Sized(e)
      modifies reader, reader.buffer
      ensures Ready()
      ensures var r := DecodeItems(e, Resize([], n, Fresh(e)), Setting(), old(reader.Remaining()));
              v == Items(Reverse(r.0)) && reader.Remaining() == r.1
      decreases e, 2
    {
      ghost var b, m, targets, read := reader.Remaining(), Setting(), Resize([], n, Fresh(e)), [];
      var temp: seq<Value> := [];
      assert targets[0..] == targets;
      MidwayStart(e, targets, m, b);
      for i := 0 to n
        invariant Ready() && temp == Reverse(read)
        invariant Midway(e, targets, m, b, read, targets[i..], reader.Remaining())
      {
        LaterTargets(targets, i);
        MidwayStep(e, targets, m, b, read, targets[i..], reader.Remaining());
        var val := Read(e, Fresh(e));
        ReversePushed(read, val);
        read := read + [val];
        temp := [val] + temp;
      }
      assert targets[n..] == [];
      MidwayEnd(e, targets, m, b, read, reader.Remaining());
      v := Items(temp);
    }

    method ReadProperties(fs: seq<Field>, priors: seq<Value>) returns (values: seq<Value>)
      requires Ready() && |fs| == |priors| && forall i :: 0 <= i < |fs| ==> Sized(fs[i].schema)
      modifies reader, reader.buffer
      ensures Ready() && DecodeFields(fs, priors, Setting(), old(reader.Remaining())) == (values, reader.Remaining())
      decreases fs, 0
    {
      values := [];
      if fs != [] {
        var value := ReadProperty(fs[0], priors[0]);
        var later := ReadProperties(fs[1..], priors[1..]);
        values := [value] + later;
      }
    }

    method ReadProperty(f: Field, prior: Value) returns (v: Value)
      requires Ready() && Sized(f.schema)
      modifies reader, reader.buffer
      ensures Ready() && DecodeField(f, prior, Setting(), old(reader.Remaining())) == (v, reader.Remaining())
      decreases f, 0
    {
      v := prior;
      if f.since <= version { v := Read(f.schema, Fresh(f.schema)); }
    }
  }

  // ------------------------------------------------- between two machines

  function FileOf(s: Schema, v: Value, version: nat, littleEndian: bool): seq<byte> {
    NativeBytes(version, HEADER_WIDTH, littleEndian) + Encode(s, v, version)
  }

  /** A serializer on a new file, closed after a flush. */
  method Save(s: Schema, v: Value, version: nat, littleEndian: bool, size: nat) returns (file: seq<byte>)
    requires Sized(s) && HasType(s, v) && size >= 8
    ensures file == FileOf(s, v, version, littleEndian) && |file| == 8 + ByteCount(s, v, version)
  {
    EncodedSize(s, v, version);
    var writer := new BufferWriter(size, true);
    SaveTo(writer, s, v, version, littleEndian);
    file := writer.file;
  }

  method SaveTo(writer: BufferWriter, s: Schema, v: Value, version: nat, littleEndian: bool)
    requires writer.Valid() && writer.isOpen && writer.buffer.Length >= 8 && writer.Written() == []
    requires Sized(s) && HasType(s, v)
    modifies writer, writer.buffer
    ensures writer.file == FileOf(s, v, version, littleEndian)
  {
    ghost var header := NativeBytes(version, HEADER_WIDTH, littleEndian);
    var output := new Serializer(writer, version, littleEndian);
    assert writer.Written() == header by { assert [] + header == header; }
    output.Write(s, v);
    writer.Flush();
  }

  /** A deserializer on any file; without a header it keeps the version it was given. */
  method Load(file: seq<byte>, s: Schema, prior: Value, given: nat, littleEndian: bool, size: nat) returns (loaded: Value)
    requires Sized(s) && size >= 8
    ensures loaded == Decode(s, prior, Mode(VersionOf(file, given, littleEndian), littleEndian), BodyOf(file)).0
  {
    var reader := new BufferReader(file, size, true);
    var input := new Deserializer(reader, given, littleEndian);
    assert input.Setting() == Mode(VersionOf(file, given, littleEndian), littleEndian);
    assert reader.Remaining() == BodyOf(file);
    loaded := input.Read(s, prior);
  }

  function VersionOf(file: seq<byte>, given: nat, littleEndian: bool): nat {
    if |file| < HEADER_WIDTH then given else FromNativeBytes(file[..HEADER_WIDTH], littleEndian)
  }

  function BodyOf(file: seq<byte>): seq<byte> {
    if |file| < HEADER_WIDTH then file else file[HEADER_WIDTH..]
  }

  /** The version a reader finds; the header is in the writer's byte order. */
  function VersionRead(version: nat, writerLittle: bool, readerLittle: bool): nat {
    FromNativeBytes(NativeBytes(version, HEADER_WIDTH, writerLittle), readerLittle)
  }

  /** Between machines of different byte order the version arrives with its bytes reversed. */
  lemma VersionBetweenMachines(version: nat, writerLittle: bool, readerLittle: bool)
    requires version < Pow256(HEADER_WIDTH)
    ensures var read, image := VersionRead(version, writerLittle, readerLittle), LittleEndian(version, HEADER_WIDTH);
            && LittleEndian(read, HEADER_WIDTH) == (if writerLittle == readerLittle then image else Reverse(image))
            && (read == version <==> writerLittle == readerLittle || image == Reverse(image))
  {
    var image := LittleEndian(version, HEADER_WIDTH);
    LittleEndianRoundTrip(version, HEADER_WIDTH);
    BigEndianRoundTrip(version, HEADER_WIDTH);
    if writerLittle != readerLittle {
      ReverseTwice(image);
      assert VersionRead(version, writerLittle, readerLittle) == FromLittleEndian(Reverse(image));
      LittleEndianOfBytes(Reverse(image));
    }
  }

  lemma FileParts(s: Schema, v: Value, version: nat, given: nat, writerLittle: bool, readerLittle: bool)
    ensures var file := FileOf(s, v, version, writerLittle);
            && VersionOf(file, given, readerLittle) == VersionRead(version, writerLittle, readerLittle)
            && BodyOf(file) == Encode(s, v, version)
  {
    assert FileOf(s, v, version, writerLittle)[..HEADER_WIDTH] == NativeBytes(version, HEADER_WIDTH, writerLittle);
  }

  /** The two versions have the same properties of s. */
  ghost predicate Alike(s: Schema, a: nat, b: nat) {
    match s
    case Scalar(_) => true
    case Enum => true
    case Container(_, e) => Alike(e, a, b)
    case FixedArray(e, _) => Alike(e, a, b)
    case RawArray(e, _) => Alike(e, a, b)
    case Pair(x, y) => Alike(x, a, b) && Alike(y, a, b)
    case Record(fs) => forall i :: 0 <= i < |fs| ==> (fs[i].since <= a <==> fs[i].since <= b) && Alike(fs[i].schema, a, b)
  }

  lemma {:induction false} SameIsAlike(s: Schema, a: nat)
    ensures Alike(s, a, a)
  {
    match s
    case Scalar(_) =>
    case Enum =>
    case Container(_, e) => SameIsAlike(e, a);
    case FixedArray(e, _) => SameIsAlike(e, a);
    case RawArray(e, _) => SameIsAlike(e, a);
    case Pair(x, y) => SameIsAlike(x, a); SameIsAlike(y, a);
    case Record(fs) =>
      forall i | 0 <= i < |fs| ensures Alike(fs[i].schema, a, a) { SameIsAlike(fs[i].schema, a); }
  }

  lemma {:induction false} AlikeEncode(s: Schema, v: Value, a: nat, b: nat)
    requires Alike(s, a, b)
    ensures Encode(s, v, a) == Encode(s, v, b)
    decreases s, 0, 0
  {
    match s
    case Scalar(_) =>
    case Enum =>
    case Container(kind, e) => AlikeEncodeItems(e, WriteOrder(kind, ItemsOf(v)), a, b);
    case FixedArray(e, _) => AlikeEncodeItems(e, ItemsOf(v), a, b);
    case RawArray(e, _) => AlikeEncodeItems(e, ItemsOf(v), a, b);
    case Pair(x, y) => AlikeEncode(x, FirstOf(v), a, b); AlikeEncode(y, SecondOf(v), a, b);
    case Record(fs) => AlikeEncodeFields(fs, ItemsOf(v), a, b);
  }

  lemma {:induction false} AlikeEncodeItems(e: Schema, items: seq<Value>, a: nat, b: nat)
    requires Alike(e, a, b)
    ensures EncodeItems(e, items, a) == EncodeItems(e, items, b)
    decreases e, 1, |items|
  {
    if items != [] {
      AlikeEncode(e, items[0], a, b);
      AlikeEncodeItems(e, items[1..], a, b);
    }
  }

  lemma {:induction false} AlikeEncodeFields(fs: seq<Field>, values: seq<Value>, a: nat, b: nat)
    requires forall i :: 0 <= i < |fs| ==> (fs[i].since <= a <==> fs[i].since <= b) && Alike(fs[i].schema, a, b)
    ensures EncodeFields(fs, values, a) == EncodeFields(fs, values, b)
    decreases fs, 1, 0
  {
    if fs != [] && values != [] {
      AlikeEncodeField(fs[0], values[0], a, b);
      AlikeEncodeFields(fs[1..], values[1..], a, b);
    }
  }

  lemma {:induction false} AlikeEncodeField(f: Field, v: Value, a: nat, b: nat)
    requires (f.since <= a <==> f.since <= b) && Alike(f.schema, a, b)
    ensures EncodeField(f, v, a) == EncodeField(f, v, b)
    decreases f
  {
    AlikeEncode(f.schema, v, a, b);
  }

  /** A body is read back whenever the version it is read under has the same properties. */
  lemma BodyAcrossVersions(s: Schema, v: Value, prior: Value, version: nat, m: Mode)
    requires HasType(s, v) && Alike(s, version, m.version)
    ensures Decode(s, prior, m, Encode(s, v, version)) == (Restored(s, v, prior, m.version), [])
    ensures FitsBytes(s, v) && Current(s, m.version) && Blank(s, prior) ==> Restored(s, v, prior, m.version) == v
  {
    AlikeEncode(s, v, version, m.version);
    assert Encode(s, v, m.version) + [] == Encode(s, v, m.version);
    RoundTrip(s, v, prior, m, []);
    if FitsBytes(s, v) && Current(s, m.version) && Blank(s, prior) {
      RestoresExactly(s, v, prior, m.version);
    }
  }

  // The other direction, for the property that a newer version appends to a record.

  lemma {:induction false} EncodeLastField(fs: seq<Field>, f: Field, vs: seq<Value>, v: Value, version: nat)
    requires |fs| == |vs|
    ensures EncodeFields(fs + [f], vs + [v], version) == EncodeFields(fs, vs, version) + EncodeField(f, v, version)
    decreases |fs|
  {
    if fs == [] {
      var last := EncodeField(f, v, version);
      assert (fs + [f])[1..] == [] && (vs + [v])[1..] == [];
      assert EncodeFields(fs + [f], vs + [v], version) == last + [] == last == [] + last;
    } else {
      assert (fs + [f])[1..] == fs[1..] + [f] && (vs + [v])[1..] == vs[1..] + [v];
      EncodeLastField(fs[1..], f, vs[1..], v, version);
      Associative(EncodeField(fs[0], vs[0], version), EncodeFields(fs[1..], vs[1..], version), EncodeField(f, v, version));
    }
  }

  lemma {:induction false} DecodeLastField(fs: seq<Field>, f: Field, ps: seq<Value>, p: Value, m: Mode, b: seq<byte>)
    requires |fs| == |ps|
    ensures var r := DecodeFields(fs, ps, m, b);
            var q := DecodeField(f, p, m, r.1);
            DecodeFields(fs + [f], ps + [p], m, b) == (r.0 + [q.0], q.1)
    decreases |fs|
  {
    if fs == [] {
      var q := DecodeField(f, p, m, b);
      assert (fs + [f])[1..] == [] && (ps + [p])[1..] == [];
      assert DecodeFields(fs + [f], ps + [p], m, b) == ([q.0] + [], q.1);
      assert [q.0] + [] == [q.0] == [] + [q.0];
    } else {
      assert (fs + [f])[1..] == fs[1..] + [f] && (ps + [p])[1..] == ps[1..] + [p];
      var first := DecodeField(fs[0], ps[0], m, b);
      var later := DecodeFields(fs[1..], ps[1..], m, first.1);
      DecodeLastField(fs[1..], f, ps[1..], p, m, first.1);
      Associative([first.0], later.0, [DecodeField(f, p, m, later.1).0]);
    }
  }

  /** What becomes of a last property, after others that the two versions agree on. */
  lemma LastProperty(fs: seq<Field>, f: Field, vs: seq<Value>, v: Value, ps: seq<Value>, p: Value, version: nat, m: Mode)
    requires HasType(Record(fs), Items(vs)) && |ps| == |fs| && Alike(Record(fs), version, m.version)
    ensures var body := EncodeFields(fs + [f], vs + [v], version);
            var q := DecodeField(f, p, m, EncodeField(f, v, version));
            DecodeFields(fs + [f], ps + [p], m, body) == (RestoredFields(fs, vs, ps, m.version) + [q.0], q.1)
  {
    EncodeLastField(fs, f, vs, v, version);
    AlikeEncodeFields(fs, vs, version, m.version);
    FieldsRoundTrip(fs, vs, ps, m, EncodeField(f, v, version));
    DecodeLastField(fs, f, ps, p, m, EncodeFields(fs + [f], vs + [v], version));
  }

  /** Of the property alone: its value comes back, or stays as it was, and nothing is left over. */
  ghost predicate ComesBack(f: Field, v: Value, p: Value, version: nat, m: Mode) {
    DecodeField(f, p, m, EncodeField(f, v, version)) == (RestoredField(f, v, p, m.version), [])
  }

  /** The whole record does, with the property as its last. */
  ghost predicate RecordComesBack(fs: seq<Field>, f: Field, vs: seq<Value>, v: Value, ps: seq<Value>, p: Value, version: nat, m: Mode)
    requires |fs| == |vs| == |ps|
  {
    DecodeFields(fs + [f], ps + [p], m, EncodeFields(fs + [f], vs + [v], version))
      == (RestoredFields(fs, vs, ps, m.version) + [RestoredField(f, v, p, m.version)], [])
  }

  lemma RecordLikeLast(fs: seq<Field>, f: Field, vs: seq<Value>, v: Value, ps: seq<Value>, p: Value, version: nat, m: Mode)
    requires HasType(Record(fs), Items(vs)) && |ps| == |fs| && Alike(Record(fs), version, m.version)
    ensures RecordComesBack(fs, f, vs, v, ps, p, version, m) <==> ComesBack(f, v, p, version, m)
  {
    LastProperty(fs, f, vs, v, ps, p, version, m);
    var others, q, y := RestoredFields(fs, vs, ps, m.version), DecodeField(f, p, m, EncodeField(f, v, version)), RestoredField(f, v, p, m.version);
    assert (others + [q.0])[|others|] == q.0 && (others + [y])[|others|] == y;
  }

  /**
   * Records with two different values of an appended property both come back exactly when the
   * version written and the version read agree on having it.
   */
  lemma LastPropertyExactly(fs: seq<Field>, f: Field, vs: seq<Value>, v: Value, u: Value, ps: seq<Value>, p: Value,
                            version: nat, m: Mode)
    requires HasType(Record(fs), Items(vs)) && |ps| == |fs| && Alike(Record(fs), version, m.version)
    requires Alike(f.schema, version, m.version) && Current(f.schema, m.version)
    requires HasType(f.schema, v) && HasType(f.schema, u) && FitsBytes(f.schema, v) && FitsBytes(f.schema, u)
    requires v != u && Encode(f.schema, v, version) != []
    ensures (RecordComesBack(fs, f, vs, v, ps, p, version, m) && RecordComesBack(fs, f, vs, u, ps, p, version, m))
       <==> (f.since <= version <==> f.since <= m.version)
  {
    RecordLikeLast(fs, f, vs, v, ps, p, version, m);
    RecordLikeLast(fs, f, vs, u, ps, p, version, m);
    var blank := Fresh(f.schema);
    FreshIsBlank(f.schema);
    BodyAcrossVersions(f.schema, v, blank, version, m);
    BodyAcrossVersions(f.schema, u, blank, version, m);
  }

  /**
   * Writing a value to a file and reading it back, for all buffer sizes and byte
   * orders on both sides: the body is decoded under the version as it arrives,
   * and comes back when that version has the same properties.
   */
  method SaveAndLoad(s: Schema, v: Value, prior: Value, version: nat, given: nat,
                     writerLittle: bool, readerLittle: bool, writerSize: nat, readerSize: nat)
    returns (loaded: Value)
    requires Sized(s) && HasType(s, v) && version < Pow256(HEADER_WIDTH)
    requires writerSize >= 8 && readerSize >= 8
    ensures var read := VersionRead(version, writerLittle, readerLittle);
            && loaded == Decode(s, prior, Mode(read, readerLittle), Encode(s, v, version)).0
            && (Alike(s, version, read) ==> loaded == Restored(s, v, prior, read))
            && (Alike(s, version, read) && FitsBytes(s, v) && Current(s, read) && Blank(s, prior) ==> loaded == v)
    ensures writerLittle == readerLittle ==> loaded == Restored(s, v, prior, version)
  {
    ghost var read := VersionRead(version, writerLittle, readerLittle);
    var file := Save(s, v, version, writerLittle, writerSize);
    FileParts(s, v, version, given, writerLittle, readerLittle);
    loaded := Load(file, s, prior, given, readerLittle, readerSize);
    if Alike(s, version, read) { BodyAcrossVersions(s, v, prior, version, Mode(read, readerLittle)); }
    if writerLittle == readerLittle {
      VersionBetweenMachines(version, writerLittle, readerLittle);
      SameIsAlike(s, version);
    }
  }

  /** A record whose only property exists from version 2 on. */
  function Newer(): Schema { Record([Field(2, Scalar(4), Number(0))]) }

  lemma OneReversed()
    ensures VersionRead(1, true, false) == Pow256(7) && Pow256(7) >= 2
  {
    var image := LittleEndian(1, 8);
    assert LittleEndian(1, 8) == [1] + LittleEndian(0, 7);
    Zeros(7);
    assert Reverse(image) == LittleEndian(0, 7) + [1];
    ZerosThenOne(7);
    Pow256AtLeast(7);
  }

  lemma {:induction false} ZerosThenOne(n: nat)
    ensures FromLittleEndian(LittleEndian(0, n) + [1]) == Pow256(n)
  {
    if n > 0 {
      assert (LittleEndian(0, n) + [1])[1..] == LittleEndian(0, n - 1) + [1];
      ZerosThenOne(n - 1);
    }
  }

  /** Under a version that has the property, an empty body leaves zero in it. */
  lemma NewerFromNothing(prior: Value, m: Mode)
    requires m.version >= 2
    ensures Decode(Newer(), prior, m, []) == (Items([Number(0)]), [])
  {
    var fs := Newer().fields;
    ZeroImage(4, m.littleEndian);
    assert ReadNumber([], 4, 0, m) == (0, []);
    assert DecodeField(fs[0], Resize(ItemsOf(prior), 1, Number(0))[0], m, []) == (Number(0), []);
    assert fs[1..] == [];
    assert [Number(0)] + [] == [Number(0)];
  }

  /** Under version 1 the property is neither written nor read. */
  lemma NewerUntouched(x: Value, m: Mode)
    requires m.version == 1
    ensures Encode(Newer(), Items([x]), 1) == [] && Decode(Newer(), Items([x]), m, []) == (Items([x]), [])
  {
    var fs := Newer().fields;
    assert fs[1..] == [] && Resize([x], 1, Number(0)) == [x];
    assert EncodeField(fs[0], x, 1) == [] && DecodeField(fs[0], x, m, []) == (x, []);
    assert [x] + [] == [x];
  }

  /** Version 1 read on the other byte order: a property that was never written is read, and its value lost. */
  lemma ForeignHeader()
    ensures var prior := Items([Number(5)]);
            var body := Encode(Newer(), prior, 1);
            && body == []
            && Decode(Newer(), prior, Mode(VersionRead(1, true, true), true), body).0 == prior
            && Decode(Newer(), prior, Mode(VersionRead(1, true, false), false), body).0 == Items([Number(0)])
  {
    var prior := Items([Number(5)]);
    OneReversed();
    Pow256AtLeast(HEADER_WIDTH);
    VersionBetweenMachines(1, true, true);
    NewerUntouched(Number(5), Mode(VersionRead(1, true, true), true));
    NewerFromNothing(prior, Mode(VersionRead(1, true, false), false));
  }
}
