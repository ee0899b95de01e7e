/**
 * The serialized form of typed values: the byte strings that writing produces
 * and the reading of values back, with property versions.
 */
module Codec {
  import opened Basics
  import opened Bytes

  datatype ContainerKind =
    | Vector          // also deques: resized, then filled by index
    | List            // filled at the end
    | ForwardList     // filled from the front
    | Set | Multiset
    | Map | Multimap  // the elements are pairs
    | Queue           // front first
    | Stack           // top last
    | PriorityQueue   // in draining order

  /** The C++ type of a value; a pointer has the schema of what it points to. */
  datatype Schema =
    | Scalar(width: nat)                  // integers, characters, floats by bit pattern
    | Enum                                // written as one byte
    | Container(kind: ContainerKind, elem: Schema)
    | FixedArray(elem: Schema, size: nat) // std::array: an element count is written too
    | RawArray(elem: Schema, size: nat)   // elements only
    | Pair(first: Schema, second: Schema)
    | Record(fields: seq<Field>)          // reflected properties, in order

  /** A property is stored from version `since` on; `initial` is its default. */
  datatype Field = Field(since: nat, schema: Schema, initial: Value)

  datatype Value =
    | Number(n: nat)
    | Items(items: seq<Value>)            // containers, arrays and records
    | Both(a: Value, b: Value)

  const COUNT_WIDTH: nat := 8
  const MAX_COUNT: nat := 0x8000_0000      // loops count with a 32-bit int

  function NumberOf(v: Value): nat { if v.Number? then v.n else 0 }

  function ItemsOf(v: Value): seq<Value> { if v.Items? then v.items else [] }

  function FirstOf(v: Value): Value { if v.Both? then v.a else v }

  function SecondOf(v: Value): Value { if v.Both? then v.b else v }

  /** v is a value of type s within the limits of the format. */
  ghost predicate HasType(s: Schema, v: Value)
    decreases s
  {
    match s
    case Scalar(w) => w > 0 && v.Number? && v.n < Pow256(w)
    case Enum => v.Number?
    case Container(kind, e) =>
      && v.Items? && |v.items| < MAX_COUNT && (forall i :: 0 <= i < |v.items| ==> HasType(e, v.items[i]))
      && (kind.Set? ==> Distinct(v.items))
      && (kind.Map? ==> Distinct(Keys(v.items)))
    case FixedArray(e, n) => v.Items? && |v.items| == n < MAX_COUNT && forall i :: 0 <= i < n ==> HasType(e, v.items[i])
    case RawArray(e, n) => v.Items? && |v.items| == n && forall i :: 0 <= i < n ==> HasType(e, v.items[i])
    case Pair(x, y) => v.Both? && HasType(x, v.a) && HasType(y, v.b)
    case Record(fs) => v.Items? && |v.items| == |fs| && forall i :: 0 <= i < |fs| ==> HasType(fs[i].schema, v.items[i])
  }

  function Keys(items: seq<Value>): (ks: seq<Value>)
    ensures |ks| == |items| && forall i :: 0 <= i < |items| ==> ks[i] == FirstOf(items[i])
  {
    seq(|items|, i requires 0 <= i < |items| => FirstOf(items[i]))
  }

  // ---------------------------------------------------------------- writing

  /** The order in which a container hands out its elements to be written. */
  function WriteOrder(kind: ContainerKind, items: seq<Value>): seq<Value> {
    if kind.Stack? then Reverse(items) else items
  }

  function Encode(s: Schema, v: Value, version: nat): seq<byte>
    decreases s, 0, 0
  {
    match s
    case Scalar(w) => BigEndian(NumberOf(v), w)
    case Enum => BigEndian(NumberOf(v) % 256, 1)
    case Container(kind, e) =>
      BigEndian(|ItemsOf(v)|, COUNT_WIDTH) + EncodeItems(e, WriteOrder(kind, ItemsOf(v)), version)
    case FixedArray(e, n) => BigEndian(|ItemsOf(v)|, COUNT_WIDTH) + EncodeItems(e, ItemsOf(v), version)
    case RawArray(e, n) => EncodeItems(e, ItemsOf(v), version)
    case Pair(x, y) => Encode(x, FirstOf(v), version) + Encode(y, SecondOf(v), version)
    case Record(fs) => EncodeFields(fs, ItemsOf(v), version)
  }

  function EncodeItems(e: Schema, items: seq<Value>, version: nat): seq<byte>
    decreases e, 1, |items|
  {
    if items == [] then [] else Encode(e, items[0], version) + EncodeItems(e, items[1..], version)
  }

  function EncodeFields(fs: seq<Field>, values: seq<Value>, version: nat): seq<byte>
    decreases fs, 1, 0
  {
    if fs == [] || values == [] then []
    else EncodeField(fs[0], values[0], version) + EncodeFields(fs[1..], values[1..], version)
  }

  /** A property newer than the version is not written. */
  function EncodeField(f: Field, v: Value, version: nat): seq<byte>
    decreases f
  {
    if version >= f.since then Encode(f.schema, v, version) else []
  }

  // ---------------------------------------------------------------- reading

  /** A default-constructed value. */
  function Fresh(s: Schema): Value {
    match s
    case Scalar(_) => Number(0)
    case Enum => Number(0)
    case Container(_, _) => Items([])
    case FixedArray(e, n) => Items(seq(n, _ => Fresh(e)))
    case RawArray(e, n) => Items(seq(n, _ => Fresh(e)))
    case Pair(x, y) => Both(Fresh(x), Fresh(y))
    case Record(fs) => Items(seq(|fs|, i requires 0 <= i < |fs| => fs[i].initial))
  }

  function Resize(items: seq<Value>, n: nat, filler: Value): (r: seq<Value>)
    ensures |r| == n
    ensures forall i :: 0 <= i < n ==> r[i] == if i < |items| then items[i] else filler
  {
    seq(n, i requires 0 <= i < n => if i < |items| then items[i] else filler)
  }

  /** What the n elements read into a container are read over. */
  function Targets(kind: ContainerKind, prior: Value, n: nat, e: Schema): (r: seq<Value>)
    ensures |r| == n
  {
    Resize(if kind.Vector? then ItemsOf(prior) else [], n, Fresh(e))
  }

  function Insert(kind: ContainerKind, items: seq<Value>, v: Value): seq<Value> {
    if kind.Set? && v in items then items
    else if kind.Map? && FirstOf(v) in Keys(items) then items
    else items + [v]
  }

  function InsertAll(kind: ContainerKind, items: seq<Value>, vs: seq<Value>): seq<Value>
    decreases |vs|
  {
    if vs == [] then items else InsertAll(kind, Insert(kind, items, vs[0]), vs[1..])
  }

  /** The container after the elements `read` went in, in that order. */
  function Assemble(kind: ContainerKind, prior: Value, read: seq<Value>): Value {
    match kind
    case Vector => Items(read)
    case Stack => Items(Reverse(read))
    case ForwardList => Items(read + ItemsOf(prior))
    case _ => Items(InsertAll(kind, ItemsOf(prior), read))
  }

  /** The version in force and the byte order of the reading machine. */
  datatype Mode = Mode(version: nat, littleEndian: bool)

  /** A number is read over `stale`. When the bytes run out none is consumed, and the stale image is swapped all the same. */
  function ReadNumber(b: seq<byte>, width: nat, stale: nat, m: Mode): (nat, seq<byte>) {
    if |b| < width then (FromBigEndian(NativeBytes(stale, width, m.littleEndian)), b)
    else (FromBigEndian(b[..width]), b[width..])
  }

  /** Reads a value of type s over `prior`: the value and the bytes left. */
  function Decode(s: Schema, prior: Value, m: Mode, b: seq<byte>): (Value, seq<byte>)
    decreases s, 0, 0
  {
    match s
    case Scalar(w) =>
      var (n, left) := ReadNumber(b, w, NumberOf(prior), m);
      (Number(n), left)
    case Enum =>
      var (n, left) := ReadNumber(b, 1, 0, m);
      (Number(n), left)
    case Container(kind, e) =>
      var (n, body) := ReadNumber(b, COUNT_WIDTH, 0, m);
      var (read, left) := DecodeItems(e, Targets(kind, prior, n, e), m, body);
      (Assemble(kind, prior, read), left)
    case FixedArray(e, n) =>
      var (_, body) := ReadNumber(b, COUNT_WIDTH, 0, m);
      var (read, left) := DecodeItems(e, Resize(ItemsOf(prior), n, Fresh(e)), m, body);
      (Items(read), left)
    case RawArray(e, n) =>
      var (read, left) := DecodeItems(e, Resize(ItemsOf(prior), n, Fresh(e)), m, b);
      (Items(read), left)
    case Pair(x, y) =>
      var (first, later) := Decode(x, FirstOf(prior), m, b);
      var (second, left) := Decode(y, SecondOf(prior), m, later);
      (Both(first, second), left)
    case Record(fs) =>
      var (read, left) := DecodeFields(fs, Resize(ItemsOf(prior), |fs|, Number(0)), m, b);
      (Items(read), left)
  }

  function DecodeItems(e: Schema, targets: seq<Value>, m: Mode, b: seq<byte>): (seq<Value>, seq<byte>)
    decreases e, 1, |targets|
  {
    if targets == [] then ([], b) else
    var (first, later) := Decode(e, targets[0], m, b);
    var (others, left) := DecodeItems(e, targets[1..], m, later);
    ([first] + others, left)
  }

  function DecodeFields(fs: seq<Field>, priors: seq<Value>, m: Mode, b: seq<byte>): (seq<Value>, seq<byte>)
    requires |priors| == |fs|
    decreases fs, 1, 0
  {
    if fs == [] then ([], b) else
    var (first, later) := DecodeField(fs[0], priors[0], m, b);
    var (others, left) := DecodeFields(fs[1..], priors[1..], m, later);
    ([first] + others, left)
  }

  /** A property at or below the version is read into a fresh value; the others keep theirs. */
  function DecodeField(f: Field, prior: Value, m: Mode, b: seq<byte>): (Value, seq<byte>)
    decreases f
  {
    if f.since <= m.version then Decode(f.schema, Fresh(f.schema), m, b) else (prior, b)
  }

  lemma DecodeContainer(kind: ContainerKind, e: Schema, prior: Value, m: Mode, b: seq<byte>)
    ensures var count := ReadNumber(b, COUNT_WIDTH, 0, m);
            var r := DecodeItems(e, Targets(kind, prior, count.0, e), m, count.1);
            Decode(Container(kind, e), prior, m, b) == (Assemble(kind, prior, r.0), r.1)
  {
  }

  // ------------------------------------------------- what reading gives back

  /** The value that comes back when v is written and read over `prior`. */
  function Restored(s: Schema, v: Value, prior: Value, version: nat): Value
    decreases s, 0, 0
  {
    match s
    case Scalar(_) => v
    case Enum => Number(NumberOf(v) % 256)
    case Container(kind, e) =>
      var written := WriteOrder(kind, ItemsOf(v));
      Assemble(kind, prior, RestoredItems(e, written, Targets(kind, prior, |written|, e), version))
    case FixedArray(e, n) => Items(RestoredItems(e, ItemsOf(v), Resize(ItemsOf(prior), |ItemsOf(v)|, Fresh(e)), version))
    case RawArray(e, n) => Items(RestoredItems(e, ItemsOf(v), Resize(ItemsOf(prior), |ItemsOf(v)|, Fresh(e)), version))
    case Pair(x, y) =>
      Both(Restored(x, FirstOf(v), FirstOf(prior), version), Restored(y, SecondOf(v), SecondOf(prior), version))
    case Record(fs) => Items(RestoredFields(fs, ItemsOf(v), Resize(ItemsOf(prior), |ItemsOf(v)|, Number(0)), version))
  }

  function RestoredItems(e: Schema, items: seq<Value>, targets: seq<Value>, version: nat): (r: seq<Value>)
    requires |items| == |targets|
    ensures |r| == |items|
    ensures forall i :: 0 <= i < |items| ==> r[i] == Restored(e, items[i], targets[i], version)
    decreases e, 1, |items|
  {
    if items == [] then []
    else [Restored(e, items[0], targets[0], version)] + RestoredItems(e, items[1..], targets[1..], version)
  }

  function RestoredFields(fs: seq<Field>, values: seq<Value>, priors: seq<Value>, version: nat): (r: seq<Value>)
    requires |values| == |priors|
    ensures |fs| == |values| ==> |r| == |fs|
    ensures |fs| == |values| ==> forall i :: 0 <= i < |fs| ==>
              r[i] == RestoredField(fs[i], values[i], priors[i], version)
    decreases fs, 1, 0
  {
    if fs == [] || values == [] then []
    else [RestoredField(fs[0], values[0], priors[0], version)]
         + RestoredFields(fs[1..], values[1..], priors[1..], version)
  }

  function RestoredField(f: Field, v: Value, prior: Value, version: nat): Value
    decreases f
  {
    if f.since <= version then Restored(f.schema, v, Fresh(f.schema), version) else prior
  }

  // -------------------------------------------------------------- round trip

  lemma NumberRoundTrip(n: nat, w: nat, rest: seq<byte>, stale: nat, m: Mode)
    requires n < Pow256(w)
    ensures ReadNumber(BigEndian(n, w) + rest, w, stale, m) == (n, rest)
  {
    var b := BigEndian(n, w) + rest;
    assert b[..w] == BigEndian(n, w) && b[w..] == rest;
    BigEndianRoundTrip(n, w);
  }

  lemma CountThen(n: nat, body: seq<byte>, rest: seq<byte>, m: Mode)
    requires n < MAX_COUNT
    ensures ReadNumber(BigEndian(n, COUNT_WIDTH) + body + rest, COUNT_WIDTH, 0, m) == (n, body + rest)
  {
    Pow256AtLeast(COUNT_WIDTH);
    Associative(BigEndian(n, COUNT_WIDTH), body, rest);
    NumberRoundTrip(n, COUNT_WIDTH, body + rest, 0, m);
  }

  /** Decoding what was encoded, followed by anything, returns the value and exactly the rest. */
  lemma {:induction false} RoundTrip(s: Schema, v: Value, prior: Value, m: Mode, rest: seq<byte>)
    requires HasType(s, v)
    ensures Decode(s, prior, m, Encode(s, v, m.version) + rest) == (Restored(s, v, prior, m.version), rest)
    decreases s, 0, 0
  {
    var version := m.version;
    match s
    case Scalar(w) => NumberRoundTrip(v.n, w, rest, NumberOf(prior), m);
    case Enum =>
      assert Pow256(1) == 256 * Pow256(0);
      NumberRoundTrip(v.n % 256, 1, rest, 0, m);
    case Container(kind, e) =>
      var written := WriteOrder(kind, v.items);
      CountThen(|v.items|, EncodeItems(e, written, version), rest, m);
      ItemsRoundTrip(e, written, Targets(kind, prior, |written|, e), m, rest);
    case FixedArray(e, n) =>
      CountThen(|v.items|, EncodeItems(e, v.items, version), rest, m);
      ItemsRoundTrip(e, v.items, Resize(ItemsOf(prior), n, Fresh(e)), m, rest);
    case RawArray(e, n) =>
      ItemsRoundTrip(e, v.items, Resize(ItemsOf(prior), n, Fresh(e)), m, rest);
    case Pair(x, y) =>
      RoundTrip(x, v.a, FirstOf(prior), m, Encode(y, v.b, version) + rest);
      RoundTrip(y, v.b, SecondOf(prior), m, rest);
      Associative(Encode(x, v.a, version), Encode(y, v.b, version), rest);
    case Record(fs) =>
      FieldsRoundTrip(fs, v.items, Resize(ItemsOf(prior), |fs|, Number(0)), m, rest);
  }

  lemma DecodeNext(e: Schema, targets: seq<Value>, m: Mode, b: seq<byte>,
                   first: Value, left: seq<byte>, later: seq<Value>, rest: seq<byte>)
    requires targets != [] && Decode(e, targets[0], m, b) == (first, left)
    requires DecodeItems(e, targets[1..], m, left) == (later, rest)
    ensures DecodeItems(e, targets, m, b) == ([first] + later, rest)
  {
  }

  lemma {:induction false} ItemsRoundTrip(e: Schema, items: seq<Value>, targets: seq<Value>, m: Mode, rest: seq<byte>)
    requires |items| == |targets| && forall i :: 0 <= i < |items| ==> HasType(e, items[i])
    ensures DecodeItems(e, targets, m, EncodeItems(e, items, m.version) + rest)
         == (RestoredItems(e, items, targets, m.version), rest)
    decreases e, 1, |items|
  {
    var version := m.version;
    if items == [] {
      assert EncodeItems(e, items, version) + rest == rest;
    } else {
      var later := EncodeItems(e, items[1..], version);
      RoundTrip(e, items[0], targets[0], m, later + rest);
      ItemsRoundTrip(e, items[1..], targets[1..], m, rest);
      Associative(Encode(e, items[0], version), later, rest);
      DecodeNext(e, targets, m, EncodeItems(e, items, version) + rest,
                 Restored(e, items[0], targets[0], version), later + rest,
                 RestoredItems(e, items[1..], targets[1..], version), rest);
    }
  }

  lemma {:induction false} FieldsRoundTrip(fs: seq<Field>, values: seq<Value>, priors: seq<Value>, m: Mode, rest: seq<byte>)
    requires |values| == |priors| == |fs| && forall i :: 0 <= i < |fs| ==> HasType(fs[i].schema, values[i])
    ensures DecodeFields(fs, priors, m, EncodeFields(fs, values, m.version) + rest)
         == (RestoredFields(fs, values, priors, m.version), rest)
    decreases fs, 1, 0
  {
    var version := m.version;
    if fs == [] {
      assert EncodeFields(fs, values, version) + rest == rest;
    } else {
      var tail := EncodeFields(fs[1..], values[1..], version) + rest;
      Associative(EncodeField(fs[0], values[0], version), EncodeFields(fs[1..], values[1..], version), rest);
      FieldRoundTrip(fs[0], values[0], priors[0], m, tail);
      FieldsRoundTrip(fs[1..], values[1..], priors[1..], m, rest);
    }
  }

  lemma {:induction false} FieldRoundTrip(f: Field, v: Value, prior: Value, m: Mode, rest: seq<byte>)
    requires HasType(f.schema, v)
    ensures DecodeField(f, prior, m, EncodeField(f, v, m.version) + rest)
         == (RestoredField(f, v, prior, m.version), rest)
    decreases f
  {
    if f.since <= m.version {
      RoundTrip(f.schema, v, Fresh(f.schema), m, rest);
    } else {
      assert EncodeField(f, v, m.version) + rest == rest;
    }
  }

  // --------------------------------------------------- when nothing is lost

  /** No property anywhere in s is newer than the version. */
  ghost predicate Current(s: Schema, version: nat) {
    match s
    case Scalar(_) => true
    case Enum => true
    case Container(_, e) => Current(e, version)
    case FixedArray(e, _) => Current(e, version)
    case RawArray(e, _) => Current(e, version)
    case Pair(x, y) => Current(x, version) && Current(y, version)
    case Record(fs) => forall i :: 0 <= i < |fs| ==> fs[i].since <= version && Current(fs[i].schema, version)
  }

  /** Every enumeration value in v fits into its byte. */
  ghost predicate FitsBytes(s: Schema, v: Value)
    decreases s
  {
    match s
    case Scalar(_) => true
    case Enum => NumberOf(v) < 256
    case Container(_, e) => forall i :: 0 <= i < |ItemsOf(v)| ==> FitsBytes(e, ItemsOf(v)[i])
    case FixedArray(e, _) => forall i :: 0 <= i < |ItemsOf(v)| ==> FitsBytes(e, ItemsOf(v)[i])
    case RawArray(e, _) => forall i :: 0 <= i < |ItemsOf(v)| ==> FitsBytes(e, ItemsOf(v)[i])
    case Pair(x, y) => FitsBytes(x, FirstOf(v)) && FitsBytes(y, SecondOf(v))
    case Record(fs) => |ItemsOf(v)| == |fs| && forall i :: 0 <= i < |fs| ==> FitsBytes(fs[i].schema, ItemsOf(v)[i])
  }

  /** Containers that would be appended to are empty. */
  ghost predicate Blank(s: Schema, prior: Value)
    decreases s
  {
    match s
    case Scalar(_) => true
    case Enum => true
    case Container(_, _) => ItemsOf(prior) == []
    case FixedArray(e, _) => forall i :: 0 <= i < |ItemsOf(prior)| ==> Blank(e, ItemsOf(prior)[i])
    case RawArray(e, _) => forall i :: 0 <= i < |ItemsOf(prior)| ==> Blank(e, ItemsOf(prior)[i])
    case Pair(x, y) => Blank(x, FirstOf(prior)) && Blank(y, SecondOf(prior))
    case Record(_) => true
  }

  lemma {:induction false} FreshIsBlank(s: Schema)
    ensures Blank(s, Fresh(s))
  {
    match s
    case Scalar(_) =>
    case Enum =>
    case Container(_, _) =>
    case FixedArray(e, _) => FreshIsBlank(e);
    case RawArray(e, _) => FreshIsBlank(e);
    case Pair(x, y) => FreshIsBlank(x); FreshIsBlank(y);
    case Record(_) =>
  }

  lemma {:induction false} InsertAllNew(kind: ContainerKind, items: seq<Value>, vs: seq<Value>)
    requires kind.Set? ==> Distinct(items + vs)
    requires kind.Map? ==> Distinct(Keys(items + vs))
    ensures InsertAll(kind, items, vs) == items + vs
    decreases |vs|
  {
    if vs == [] {
      assert items + vs == items;
    } else {
      var all := items + vs;
      assert all[|items|] == vs[0];
      assert forall i :: 0 <= i < |items| ==> all[i] == items[i] && Keys(all)[i] == Keys(items)[i];
      assert Insert(kind, items, vs[0]) == items + [vs[0]];
      assert items + [vs[0]] + vs[1..] == all;
      InsertAllNew(kind, items + [vs[0]], vs[1..]);
    }
  }

  /** What is read back is the value itself. */
  lemma {:induction false} RestoresExactly(s: Schema, v: Value, prior: Value, version: nat)
    requires HasType(s, v) && FitsBytes(s, v) && Current(s, version) && Blank(s, prior)
    ensures Restored(s, v, prior, version) == v
    decreases s, 0
  {
    assert v.Items? ==> forall i :: 0 <= i < |v.items| ==> ItemsOf(v)[i] == v.items[i];
    match s
    case Scalar(_) =>
    case Enum =>
    case Container(kind, e) => ContainerRestoresExactly(kind, e, v.items, prior, version);
    case FixedArray(e, n) => ArrayRestoresExactly(e, v.items, ItemsOf(prior), version);
    case RawArray(e, n) => ArrayRestoresExactly(e, v.items, ItemsOf(prior), version);
    case Pair(x, y) =>
      RestoresExactly(x, v.a, FirstOf(prior), version);
      RestoresExactly(y, v.b, SecondOf(prior), version);
    case Record(fs) =>
      var priors := Resize(ItemsOf(prior), |fs|, Number(0));
      forall i | 0 <= i < |fs| ensures RestoredFields(fs, v.items, priors, version)[i] == v.items[i] {
        FreshIsBlank(fs[i].schema);
        RestoresExactly(fs[i].schema, v.items[i], Fresh(fs[i].schema), version);
      }
      assert RestoredFields(fs, v.items, priors, version) == v.items;
  }

  lemma {:induction false} ContainerRestoresExactly(kind: ContainerKind, e: Schema, items: seq<Value>, prior: Value, version: nat)
    requires forall i :: 0 <= i < |items| ==> HasType(e, items[i]) && FitsBytes(e, items[i])
    requires kind.Set? ==> Distinct(items)
    requires kind.Map? ==> Distinct(Keys(items))
    requires Current(e, version) && ItemsOf(prior) == []
    ensures var written := WriteOrder(kind, items);
            Assemble(kind, prior, RestoredItems(e, written, Targets(kind, prior, |written|, e), version)) == Items(items)
    decreases e, 1
  {
    var written := WriteOrder(kind, items);
    var targets := Targets(kind, prior, |written|, e);
    FreshIsBlank(e);
    forall i | 0 <= i < |written| ensures Restored(e, written[i], targets[i], version) == written[i] {
      assert written[i] == items[if kind.Stack? then |items| - 1 - i else i];
      RestoresExactly(e, written[i], targets[i], version);
    }
    assert RestoredItems(e, written, targets, version) == written;
    AssembleWritten(kind, prior, items);
  }

  lemma AssembleWritten(kind: ContainerKind, prior: Value, items: seq<Value>)
    requires kind.Set? ==> Distinct(items)
    requires kind.Map? ==> Distinct(Keys(items))
    requires ItemsOf(prior) == []
    ensures Assemble(kind, prior, WriteOrder(kind, items)) == Items(items)
  {
    ReverseTwice(items);
    assert [] + items == items && items + [] == items;
    InsertAllNew(kind, [], items);
  }

  lemma {:induction false} ArrayRestoresExactly(e: Schema, items: seq<Value>, prior: seq<Value>, version: nat)
    requires forall i :: 0 <= i < |items| ==> HasType(e, items[i]) && FitsBytes(e, items[i])
    requires Current(e, version) && forall i :: 0 <= i < |prior| ==> Blank(e, prior[i])
    ensures RestoredItems(e, items, Resize(prior, |items|, Fresh(e)), version) == items
    decreases e, 1
  {
    FreshIsBlank(e);
    var targets := Resize(prior, |items|, Fresh(e));
    forall i | 0 <= i < |items| ensures Restored(e, items[i], targets[i], version) == items[i] {
      RestoresExactly(e, items[i], targets[i], version);
    }
  }

  /** The format is prefix-free and unambiguous. */
  lemma EncodeInjective(s: Schema, v: Value, u: Value, version: nat, rest: seq<byte>, other: seq<byte>)
    requires HasType(s, v) && FitsBytes(s, v) && HasType(s, u) && FitsBytes(s, u) && Current(s, version)
    requires Encode(s, v, version) + rest == Encode(s, u, version) + other
    ensures v == u && rest == other
  {
    var blank := Fresh(s);
    FreshIsBlank(s);
    RoundTrip(s, v, blank, Mode(version, true), rest);
    RoundTrip(s, u, blank, Mode(version, true), other);
    RestoresExactly(s, v, blank, version);
    RestoresExactly(s, u, blank, version);
  }

  /** Versioned records: properties up to the version are recovered, the others are left as they were. */
  lemma VersionedRecord(fs: seq<Field>, v: Value, prior: Value, version: nat, i: nat)
    requires HasType(Record(fs), v) && FitsBytes(Record(fs), v) && HasType(Record(fs), prior) && i < |fs|
    requires fs[i].since <= version ==> Current(fs[i].schema, version)
    ensures var r := Restored(Record(fs), v, prior, version);
            r.Items? && |r.items| == |fs| && r.items[i] == if fs[i].since <= version then v.items[i] else prior.items[i]
  {
    if fs[i].since <= version {
      FreshIsBlank(fs[i].schema);
      RestoresExactly(fs[i].schema, v.items[i], Fresh(fs[i].schema), version);
    }
  }
}
