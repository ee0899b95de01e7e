/** Base64: the lenient decoder, and the encoding of section 4 of RFC 4648. */
module Base64 {
  import opened Basics
  import opened Bytes

  const UPPER: string := "ABCDEFGHIJKLMNOPQRSTUVWXYZ"
  const LOWER: string := "abcdefghijklmnopqrstuvwxyz"
  const DIGITS: string := "0123456789"
  const ALPHABET: string := UPPER + LOWER + DIGITS + "+/"

  /** The position of c in `base64`, counted from `carry`; 65 when it is not there. */
  function UnBase64Impl(c: char, base64: string, carry: nat): nat {
    if base64 == "" then 65
    else if base64[0] == c then carry
    else UnBase64Impl(c, base64[1..], carry + 1)
  }

  lemma {:induction false} LookupFinds(c: char, base64: string, carry: nat)
    ensures UnBase64Impl(c, base64, carry) != 65 ==>
      var i := UnBase64Impl(c, base64, carry) - carry;
      0 <= i < |base64| && base64[i] == c && c !in base64[..i]
    ensures c in base64 ==> UnBase64Impl(c, base64, carry) < carry + |base64|
    ensures c !in base64 ==> UnBase64Impl(c, base64, carry) == 65
  {
    if base64 != "" && base64[0] != c {
      LookupFinds(c, base64[1..], carry + 1);
      var i := UnBase64Impl(c, base64, carry) - carry;
      if 0 < i <= |base64| { assert base64[..i] == [base64[0]] + base64[1..][..i - 1]; }
    }
  }

  function UnBase64(c: char): nat { UnBase64Impl(c, ALPHABET, 0) }

  /** The alphabet by ranges. */
  function Symbol(v: nat): char
    requires v < 64
  {
    if v < 26 then 'A' + v as char
    else if v < 52 then 'a' + (v - 26) as char
    else if v < 62 then '0' + (v - 52) as char
    else if v == 62 then '+' else '/'
  }

  function Position(c: char): (v: nat)
    ensures v <= 65
    ensures v < 64 ==> Symbol(v) == c
  {
    if 'A' <= c <= 'Z' then c as nat - 'A' as nat
    else if 'a' <= c <= 'z' then c as nat - 'a' as nat + 26
    else if '0' <= c <= '9' then c as nat - '0' as nat + 52
    else if c == '+' then 62 else if c == '/' then 63 else 65
  }

  lemma PositionOfSymbol(v: nat)
    requires v < 64
    ensures Position(Symbol(v)) == v
  {
  }

  lemma UpperAt(v: nat)
    requires v < 26
    ensures UPPER[v] == Symbol(v)
  {
  }

  lemma LowerAt(v: nat)
    requires v < 26
    ensures LOWER[v] == Symbol(26 + v)
  {
  }

  lemma AlphabetAt(v: nat)
    requires v < 64
    ensures |ALPHABET| == 64 && ALPHABET[v] == Symbol(v)
  {
    if v < 26 { UpperAt(v); } else if v < 52 { LowerAt(v - 26); }
  }

  /** The generated table is the inverse of the alphabet. */
  lemma TableIsInverse(c: char)
    ensures UnBase64(c) == Position(c)
    ensures Position(c) < 64 <==> c in ALPHABET
  {
    LookupFinds(c, ALPHABET, 0);
    var v := UnBase64(c);
    if c in ALPHABET {
      AlphabetAt(v);
      PositionOfSymbol(v);
    } else if Position(c) < 64 {
      AlphabetAt(Position(c));
      assert false;
    }
  }

  method LookUp(src: char) returns (v: nat)
    ensures v == Position(src)
  {
    TableIsInverse(src);
    v := UnBase64(src);
  }

  predicate IsSpace(c: char) {
    c == ' ' || 9 <= c as int <= 13
  }

  predicate Skipped(c: char) { IsSpace(c) || c == '=' }

  /** Every character is skipped or in the alphabet. */
  ghost predicate Decodable(s: string) {
    forall i :: 0 <= i < |s| ==> Skipped(s[i]) || Position(s[i]) < 64
  }

  /** What the decoder accepts, character by character: white space, padding, and the 64 symbols. */
  lemma AcceptedAre(s: string)
    ensures Decodable(s) <==>
              forall i :: 0 <= i < |s| ==>
                || s[i] == ' ' || s[i] == '\t' || s[i] == '\n' || s[i] == '\r' || s[i] as int == 11 || s[i] as int == 12
                || s[i] == '='
                || 'A' <= s[i] <= 'Z' || 'a' <= s[i] <= 'z' || '0' <= s[i] <= '9' || s[i] == '+' || s[i] == '/'
  {
  }

  // ----------------------------------------------------------------- groups

  predicate Sextets(values: seq<nat>) {
    forall i :: 0 <= i < |values| ==> values[i] < 64
  }

  /** Three bytes as four values, six bits each. */
  function Quad(x: byte, y: byte, z: byte): (r: seq<nat>)
    ensures |r| == 4 && Sextets(r)
  {
    var a, b, c := x as nat, y as nat, z as nat;
    [a / 4, a % 4 * 16 + b / 16, b % 16 * 4 + c / 64, c % 64]
  }

  /** Section 4: three bytes become four values; one or two left over become two or three. */
  function Pack(s: seq<byte>): (r: seq<nat>)
    ensures Sextets(r)
  {
    if |s| == 0 then [] else
    var a := s[0] as nat;
    if |s| == 1 then [a / 4, a % 4 * 16] else
    var b := s[1] as nat;
    if |s| == 2 then [a / 4, a % 4 * 16 + b / 16, b % 16 * 4] else
    Quad(s[0], s[1], s[2]) + Pack(s[3..])
  }

  function First(a: nat, b: nat): byte
    requires a < 64 && b < 64
  {
    (a * 4 + b / 16) as byte
  }

  function Second(b: nat, c: nat): byte
    requires b < 64 && c < 64
  {
    (b % 16 * 16 + c / 4) as byte
  }

  function Third(c: nat, d: nat): byte
    requires c < 64 && d < 64
  {
    (c % 4 * 64 + d) as byte
  }

  function Group(values: seq<nat>): seq<byte>
    requires |values| >= 4 && Sextets(values)
  {
    [First(values[0], values[1]), Second(values[1], values[2]), Third(values[2], values[3])]
  }

  /** The whole bytes in a row of values, four values at a time. */
  function Unpack(values: seq<nat>): seq<byte>
    requires Sextets(values)
  {
    if |values| < 2 then [] else
    if |values| == 2 then [First(values[0], values[1])] else
    if |values| == 3 then [First(values[0], values[1]), Second(values[1], values[2])] else
    Group(values) + Unpack(values[4..])
  }

  lemma {:induction false} UnpackOfPack(s: seq<byte>)
    ensures Unpack(Pack(s)) == s
  {
    if |s| == 1 {
      BackTogether(s[0], 0, 0);
    } else if |s| == 2 {
      BackTogether(s[0], s[1], 0);
    } else if |s| >= 3 {
      GroupOfPack(s);
      UnpackOfPack(s[3..]);
      assert s == [s[0], s[1], s[2]] + s[3..];
    }
  }

  lemma GroupOfPack(s: seq<byte>)
    requires |s| >= 3
    ensures |Pack(s)| >= 4 && Pack(s)[4..] == Pack(s[3..]) && Group(Pack(s)) == [s[0], s[1], s[2]]
  {
    GroupOfQuad(s[0], s[1], s[2]);
    SameGroup(Quad(s[0], s[1], s[2]), Pack(s[3..]));
  }

  lemma GroupOfQuad(x: byte, y: byte, z: byte)
    ensures Group(Quad(x, y, z)) == [x, y, z]
  {
    BackTogether(x, y, z);
  }

  lemma SameGroup(quad: seq<nat>, rest: seq<nat>)
    requires |quad| == 4 && Sextets(quad) && Sextets(rest)
    ensures Sextets(quad + rest) && Group(quad + rest) == Group(quad) && (quad + rest)[4..] == rest
  {
  }

  /** Four values put three bytes back together. */
  lemma BackTogether(x: byte, y: byte, z: byte)
    ensures var a, b, c := x as nat, y as nat, z as nat;
            && First(a / 4, a % 4 * 16 + b / 16) == x
            && Second(a % 4 * 16 + b / 16, b % 16 * 4 + c / 64) == y
            && Third(b % 16 * 4 + c / 64, c % 64) == z
  {
    var a, b, c := x as nat, y as nat, z as nat;
    Quotient(16, a % 4, b / 16);
    Quotient(4, b % 16, c / 64);
  }

  lemma Quotient(m: nat, k: nat, r: nat)
    requires (m == 4 || m == 16) && r < m
    ensures (k * m + r) / m == k && (k * m + r) % m == r
  {
  }

  /** What one more value completes after q values of a group: nothing or a byte. */
  function Completed(q: nat, last: nat, v: nat): seq<byte>
    requires last < 64 && v < 64
  {
    match q
    case 0 => []
    case 1 => [First(last, v)]
    case 2 => [Second(last, v)]
    case _ => [Third(last, v)]
  }

  function Last(values: seq<nat>): (v: nat)
    requires Sextets(values)
    ensures v < 64
  {
    if values == [] then 0 else values[|values| - 1]
  }

  lemma {:induction false} UnpackNext(values: seq<nat>, v: nat)
    requires Sextets(values) && v < 64
    ensures Sextets(values + [v])
    ensures Unpack(values + [v]) == Unpack(values) + Completed(|values| % 4, Last(values), v)
  {
    if |values| >= 4 {
      UnpackNext(values[4..], v);
      FourLess(|values|);
      UnpackGroup(values, v, Completed(|values| % 4, Last(values), v));
    } else {
      UnpackShort(values, v);
    }
  }

  lemma FourLess(n: nat)
    requires n >= 4
    ensures (n - 4) % 4 == n % 4
  {
  }

  lemma UnpackShort(values: seq<nat>, v: nat)
    requires Sextets(values) && v < 64 && |values| < 4
    ensures Unpack(values + [v]) == Unpack(values) + Completed(|values|, Last(values), v)
  {
    if |values| == 1 {
      UnpackTwo(values[0], v);
      ListedOne(values, v);
    } else if |values| == 2 {
      UnpackThree(values[0], values[1], v);
      ListedTwo(values, v);
    } else if |values| == 3 {
      UnpackFour(values[0], values[1], values[2], v);
      ListedThree(values, v);
    } else {
      assert values == [];
    }
  }

  lemma ListedOne<T>(s: seq<T>, v: T)
    requires |s| == 1
    ensures s == [s[0]] && s + [v] == [s[0], v]
  {
  }

  lemma ListedTwo<T>(s: seq<T>, v: T)
    requires |s| == 2
    ensures s == [s[0], s[1]] && s + [v] == [s[0], s[1], v]
  {
  }

  lemma ListedThree<T>(s: seq<T>, v: T)
    requires |s| == 3
    ensures s == [s[0], s[1], s[2]] && s + [v] == [s[0], s[1], s[2], v]
  {
  }

  lemma UnpackTwo(a: nat, b: nat)
    requires a < 64 && b < 64
    ensures Unpack([a, b]) == Unpack([a]) + Completed(1, a, b)
  {
  }

  lemma UnpackThree(a: nat, b: nat, c: nat)
    requires a < 64 && b < 64 && c < 64
    ensures Unpack([a, b, c]) == Unpack([a, b]) + Completed(2, b, c)
  {
  }

  lemma UnpackFour(a: nat, b: nat, c: nat, d: nat)
    requires a < 64 && b < 64 && c < 64 && d < 64
    ensures Unpack([a, b, c, d]) == Unpack([a, b, c]) + Completed(3, c, d)
  {
    assert [a, b, c, d][4..] == [];
    assert Group([a, b, c, d]) + [] == Group([a, b, c, d]);
  }

  lemma UnpackGroup(values: seq<nat>, v: nat, more: seq<byte>)
    requires Sextets(values) && v < 64 && |values| >= 4 && Sextets(values[4..] + [v])
    requires Unpack(values[4..] + [v]) == Unpack(values[4..]) + more
    ensures Sextets(values + [v]) && Unpack(values + [v]) == Unpack(values) + more
  {
    var next, later := values + [v], values[4..];
    assert next[4..] == later + [v];
    assert Group(next) == Group(values);
    Associative(Group(values), Unpack(later), more);
  }

  // ------------------------------------------------------ shifts on one char

  /** n places to the left; what leaves the eight bits is lost. */
  function Shl(x: nat, n: nat): nat
    decreases n
  {
    if n == 0 then x else Shl(x * 2 % 256, n - 1)
  }

  function Shr(x: nat, n: nat): nat {
    if n == 0 then x else Shr(x / 2, n - 1)
  }

  function Or(x: nat, y: nat): nat {
    if x == 0 && y == 0 then 0 else 2 * Or(x / 2, y / 2) + if x % 2 == 1 || y % 2 == 1 then 1 else 0
  }

  lemma TwiceTwice(x: nat)
    ensures x * 2 % 256 * 2 % 256 == x * 4 % 256
  {
    var k := x / 128;
    assert x * 2 % 256 == x * 2 - 256 * k;
    assert x * 2 % 256 * 2 == x * 4 - 256 * (2 * k);
    MultiplesGo(x * 4, 2 * k);
  }

  lemma MultiplesGo(x: nat, k: nat)
    requires x >= 256 * k
    ensures (x - 256 * k) % 256 == x % 256
  {
  }

  lemma ShlTwo(x: nat, n: nat)
    ensures Shl(x, n + 2) == Shl(x * 4 % 256, n)
  {
    TwiceTwice(x);
    assert Shl(x, n + 2) == Shl(x * 2 % 256, n + 1) == Shl(x * 2 % 256 * 2 % 256, n);
  }

  lemma ShrTwo(x: nat, n: nat)
    ensures Shr(x, n + 2) == Shr(x / 4, n)
  {
    assert x / 2 / 2 == x / 4;
    assert Shr(x, n + 2) == Shr(x / 2, n + 1) == Shr(x / 2 / 2, n);
  }

  lemma LowBits(v: nat)
    requires v < 64
    ensures v * 4 % 256 == v * 4 && v * 4 * 4 % 256 == v % 16 * 16
    ensures v % 16 * 16 * 4 % 256 == v % 4 * 64 && v % 4 * 64 * 4 % 256 == 0
  {
    Multiples(v / 16, v % 16 * 16);
    Multiples(v % 16 / 4, v % 4 * 64);
    Multiples(v % 4, 0);
  }

  lemma Multiples(k: nat, r: nat)
    requires r < 256
    ensures (256 * k + r) % 256 == r
  {
  }

  lemma ShlBy(v: nat)
    requires v < 64
    ensures Shl(v, 2) == v * 4 && Shl(v, 4) == v % 16 * 16 && Shl(v, 6) == v % 4 * 64 && Shl(v, 8) == 0
  {
    LowBits(v);
    ShlThrough(v, v * 4, v % 16 * 16, v % 4 * 64);
  }

  lemma ShlThrough(v: nat, w: nat, x: nat, y: nat)
    requires v * 4 % 256 == w && w * 4 % 256 == x && x * 4 % 256 == y && y * 4 % 256 == 0
    ensures Shl(v, 2) == w && Shl(v, 4) == x && Shl(v, 6) == y && Shl(v, 8) == 0
  {
    assert Shl(v, 2) == w by { ShlTwo(v, 0); }
    assert Shl(v, 4) == x by { ShlTwo(v, 2); ShlTwo(w, 0); }
    assert Shl(w, 4) == y by { ShlTwo(w, 2); ShlTwo(x, 0); }
    assert Shl(v, 6) == y by { ShlTwo(v, 4); }
    assert Shl(x, 4) == 0 by { ShlTwo(x, 2); ShlTwo(y, 0); }
    assert Shl(w, 6) == 0 by { ShlTwo(w, 4); }
    assert Shl(v, 8) == 0 by { ShlTwo(v, 6); }
  }

  lemma ShrBy(v: nat)
    ensures Shr(v, 0) == v && Shr(v, 2) == v / 4 && Shr(v, 4) == v / 16
  {
    ShrTwo(v, 0);
    ShrTwo(v, 2);
    ShrTwo(v / 4, 0);
  }

  lemma {:induction false} OrZero(x: nat)
    ensures Or(x, 0) == x && Or(0, x) == x
    decreases x
  {
    if x > 0 { OrZero(x / 2); }
  }

  lemma OrHalves(x: nat, y: nat)
    requires x % 2 == 0
    ensures Or(x, y) == 2 * Or(x / 2, y / 2) + y % 2
  {
  }

  /** Or of numbers without common bits, two bits at a time. */
  lemma OrQuarters(x: nat, y: nat)
    requires x % 4 == 0
    ensures Or(x, y) == 4 * Or(x / 4, y / 4) + y % 4
  {
    OrHalves(x, y);
    OrHalves(x / 2, y / 2);
    assert x / 2 / 2 == x / 4 && y / 2 / 2 == y / 4;
  }

  lemma OrLowTwo(k: nat, y: nat)
    requires y < 4
    ensures Or(4 * k, y) == 4 * k + y
  {
    Quotient(4, k, 0);
    OrQuarters(4 * k, y);
    OrZero(k);
  }

  lemma OrLowFour(k: nat, y: nat)
    requires y < 16
    ensures Or(16 * k, y) == 16 * k + y
  {
    Quotient(4, 4 * k, 0);
    OrQuarters(16 * k, y);
    OrLowTwo(k, y / 4);
  }

  lemma OrLowSix(k: nat, y: nat)
    requires y < 64
    ensures Or(64 * k, y) == 64 * k + y
  {
    Quotient(4, 16 * k, 0);
    OrQuarters(64 * k, y);
    OrLowFour(k, y / 4);
  }

  // --------------------------------------------------------------- decoding

  /** The values of the characters that are not skipped. */
  function Values(s: string): seq<nat> {
    if s == "" then []
    else Values(s[..|s| - 1]) + if Skipped(s[|s| - 1]) then [] else [Position(s[|s| - 1])]
  }

  method Base64Unescape(encoded: string) returns (ok: bool, decoded: seq<byte>)
    requires forall i :: 0 <= i < |encoded| ==> encoded[i] < 128 as char
    ensures ok <==> Decodable(encoded)
    ensures ok ==> Sextets(Values(encoded)) && decoded == Unpack(Values(encoded))
    ensures !ok ==> decoded == []
  {
    decoded := [];
    var bitPos: nat := 0;
    var dst: nat := 0;
    assert encoded[..0] == "";
    for i := 0 to |encoded|
      invariant Decoding(encoded[..i], decoded, dst, bitPos)
    {
      var src := encoded[i];
      assert encoded[..i + 1] == encoded[..i] + [src];
      if IsSpace(src) || src == '=' {
        SkipStep(encoded[..i], src, decoded, dst, bitPos);
        continue;
      }
      var bin := LookUp(src);
      if bin >= 64 {
        return false, [];
      }
      if bitPos == 0 {
        FirstStep(encoded[..i], src, decoded, dst);
        dst := Or(dst, Shl(bin, 2));
        bitPos := 6;
      } else {
        ByteStep(encoded[..i], src, decoded, dst, bitPos);
        dst := Or(dst, Shr(bin, bitPos - 2));
        decoded := decoded + [dst as byte];
        dst := Shl(bin, 10 - bitPos);
        bitPos := (bitPos + 6) % 8;
      }
    }
    assert encoded[..|encoded|] == encoded;
    ok := true;
  }

  /** After the characters s. */
  ghost predicate Decoding(s: string, decoded: seq<byte>, dst: nat, bitPos: nat) {
    Decodable(s) && Taken(Values(s), decoded, dst, bitPos)
  }

  /** The whole bytes of the values are out; what the last value has left is at the top of dst. */
  ghost predicate Taken(values: seq<nat>, decoded: seq<byte>, dst: nat, bitPos: nat) {
    && Sextets(values) && decoded == Unpack(values)
    && bitPos == PendingBits(values) && dst == LeftOver(values)
  }

  function PendingBits(values: seq<nat>): nat {
    match |values| % 4 case 0 => 0 case 1 => 6 case 2 => 4 case _ => 2
  }

  function LeftOver(values: seq<nat>): nat
    requires Sextets(values)
  {
    var last := Last(values);
    match |values| % 4 case 0 => 0 case 1 => 4 * last case 2 => 16 * (last % 16) case _ => 64 * (last % 4)
  }

  lemma NextValue(s: string, c: char)
    ensures Values(s + [c]) == if Skipped(c) then Values(s) else Values(s) + [Position(c)]
    ensures Decodable(s + [c]) <==> Decodable(s) && (Skipped(c) || Position(c) < 64)
  {
    assert (s + [c])[..|s|] == s;
    assert (s + [c])[|s|] == c;
    assert forall i :: 0 <= i < |s| ==> s[i] == (s + [c])[i];
  }

  lemma SkipStep(s: string, c: char, decoded: seq<byte>, dst: nat, bitPos: nat)
    requires Decoding(s, decoded, dst, bitPos) && Skipped(c)
    ensures Decoding(s + [c], decoded, dst, bitPos)
  {
    NextValue(s, c);
  }

  lemma FirstStep(s: string, c: char, decoded: seq<byte>, dst: nat)
    requires Decoding(s, decoded, dst, 0) && !Skipped(c) && Position(c) < 64
    ensures Decoding(s + [c], decoded, Or(dst, Shl(Position(c), 2)), 6)
  {
    NextValue(s, c);
    TakeFirst(Values(s), decoded, dst, Position(c));
  }

  lemma TakeFirst(values: seq<nat>, decoded: seq<byte>, dst: nat, v: nat)
    requires Taken(values, decoded, dst, 0) && v < 64
    ensures Taken(values + [v], decoded, Or(dst, Shl(v, 2)), 6)
  {
    UnpackNext(values, v);
    ShlBy(v);
    OrZero(v * 4);
    LeftOverNext(values, v);
  }

  lemma ByteStep(s: string, c: char, decoded: seq<byte>, dst: nat, bitPos: nat)
    requires Decoding(s, decoded, dst, bitPos) && bitPos != 0 && !Skipped(c) && Position(c) < 64
    ensures var v := Position(c);
            && (bitPos == 2 || bitPos == 4 || bitPos == 6) && Or(dst, Shr(v, bitPos - 2)) < 256
            && Decoding(s + [c], decoded + [Or(dst, Shr(v, bitPos - 2)) as byte], Shl(v, 10 - bitPos), (bitPos + 6) % 8)
  {
    NextValue(s, c);
    TakeByte(Values(s), decoded, dst, bitPos, Position(c));
  }

  lemma LeftOverNext(values: seq<nat>, v: nat)
    requires Sextets(values) && v < 64
    ensures PendingBits(values + [v]) == (PendingBits(values) + 6) % 8
    ensures LeftOver(values + [v]) == match PendingBits(values)
      case 0 => 4 * v case 6 => 16 * (v % 16) case 4 => 64 * (v % 4) case _ => 0
  {
    NextCount(|values|);
  }

  lemma NextCount(n: nat)
    ensures n % 4 < 3 ==> (n + 1) % 4 == n % 4 + 1
    ensures n % 4 == 3 ==> (n + 1) % 4 == 0
  {
  }

  lemma TakeByte(values: seq<nat>, decoded: seq<byte>, dst: nat, p: nat, v: nat)
    requires Taken(values, decoded, dst, p) && p != 0 && v < 64
    ensures (p == 2 || p == 4 || p == 6) && Or(dst, Shr(v, p - 2)) < 256
    ensures Taken(values + [v], decoded + [Or(dst, Shr(v, p - 2)) as byte], Shl(v, 10 - p), (p + 6) % 8)
  {
    UnpackNext(values, v);
    ShlBy(v);
    ByteOut(values, v);
    LeftOverNext(values, v);
  }

  lemma ByteOut(values: seq<nat>, v: nat)
    requires Sextets(values) && v < 64 && PendingBits(values) != 0
    ensures var out := Or(LeftOver(values), Shr(v, PendingBits(values) - 2));
            out < 256 && Completed(|values| % 4, Last(values), v) == [out as byte]
  {
    match |values| % 4
    case 1 => SixPending(Last(values), v);
    case 2 => FourPending(Last(values), v);
    case _ => TwoPending(Last(values), v);
  }

  lemma SixPending(last: nat, v: nat)
    requires last < 64 && v < 64
    ensures Or(4 * last, Shr(v, 4)) == 4 * last + v / 16 == First(last, v) as nat
  {
    ShrBy(v);
    OrLowTwo(last, v / 16);
  }

  lemma FourPending(last: nat, v: nat)
    requires last < 64 && v < 64
    ensures Or(16 * (last % 16), Shr(v, 2)) == 16 * (last % 16) + v / 4 == Second(last, v) as nat
  {
    ShrBy(v);
    OrLowFour(last % 16, v / 4);
  }

  lemma TwoPending(last: nat, v: nat)
    requires last < 64 && v < 64
    ensures Or(64 * (last % 4), Shr(v, 0)) == 64 * (last % 4) + v == Third(last, v) as nat
  {
    ShrBy(v);
    OrLowSix(last % 4, v);
  }

  // -------------------------------------------------------------- round trip

  function Symbols(values: seq<nat>): (r: string)
    requires Sextets(values)
    ensures |r| == |values| && forall i :: 0 <= i < |r| ==> r[i] == Symbol(values[i])
  {
    seq(|values|, i requires 0 <= i < |values| => Symbol(values[i]))
  }

  /** Section 4 with padding to whole groups of four characters. */
  function Encode(s: seq<byte>): string {
    Symbols(Pack(s)) + match |s| % 3 case 0 => "" case 1 => "==" case _ => "="
  }

  /** What is left without whitespace and padding. */
  function Stripped(s: string): string {
    if s == "" then "" else Stripped(s[..|s| - 1]) + if Skipped(s[|s| - 1]) then "" else [s[|s| - 1]]
  }

  lemma SymbolKept(v: nat)
    requires v < 64
    ensures !Skipped(Symbol(v)) && Position(Symbol(v)) == v
  {
  }

  lemma {:induction false} StrippedAppend(s: string, t: string)
    ensures Stripped(s + t) == Stripped(s) + Stripped(t)
    decreases |t|
  {
    if t == "" {
      assert s + t == s;
    } else {
      var n, u := |t| - 1, s + t;
      StrippedAppend(s, t[..n]);
      assert u[..|u| - 1] == s + t[..n] && u[|u| - 1] == t[n];
      var kept := if Skipped(t[n]) then "" else [t[n]];
      assert Stripped(u) == Stripped(s + t[..n]) + kept && Stripped(t) == Stripped(t[..n]) + kept;
    }
  }

  lemma {:induction false} StrippedSymbols(values: seq<nat>)
    requires Sextets(values)
    ensures Stripped(Symbols(values)) == Symbols(values)
    decreases |values|
  {
    if values != [] {
      var n := |values| - 1;
      StrippedSymbols(values[..n]);
      SymbolKept(values[n]);
      assert Symbols(values)[..n] == Symbols(values[..n]);
    }
  }

  /** Padding goes, the symbols stay. */
  lemma StrippedEncoding(s: seq<byte>)
    ensures Stripped(Encode(s)) == Symbols(Pack(s))
  {
    var pad := match |s| % 3 case 0 => "" case 1 => "==" case _ => "=";
    StrippedAppend(Symbols(Pack(s)), pad);
    StrippedSymbols(Pack(s));
    assert Stripped("=") == "" && Stripped("==") == "" by { assert "=="[..1] == "="; assert "="[..0] == ""; }
  }

  lemma {:induction false} ValuesOfStripped(e: string, values: seq<nat>)
    requires Sextets(values) && Stripped(e) == Symbols(values)
    ensures Values(e) == values && Decodable(e)
    decreases |e|
  {
    if e == "" {
      assert |Symbols(values)| == 0;
    } else {
      var n, c := |e| - 1, e[|e| - 1];
      if Skipped(c) {
        assert Stripped(e) == Stripped(e[..n]);
        ValuesOfStripped(e[..n], values);
      } else {
        var k := |values| - 1;
        assert |Stripped(e)| == |Stripped(e[..n])| + 1 == |values|;
        assert Stripped(e)[..k] == Stripped(e[..n]) && Stripped(e)[k] == c;
        assert Symbols(values)[..k] == Symbols(values[..k]);
        ValuesOfStripped(e[..n], values[..k]);
        SymbolKept(values[k]);
      }
    }
  }

  /** The encoding of s, with whitespace and padding put in or taken out anywhere, decodes to s. */
  lemma DecodesToOriginal(s: seq<byte>, e: string)
    requires Stripped(e) == Stripped(Encode(s))
    ensures Decodable(e) && Sextets(Values(e)) && Unpack(Values(e)) == s
  {
    StrippedEncoding(s);
    ValuesOfStripped(e, Pack(s));
    UnpackOfPack(s);
  }

  /** The decoder itself returns s, for every such e. */
  method RoundTrip(s: seq<byte>, e: string) returns (t: seq<byte>)
    requires Stripped(e) == Stripped(Encode(s))
    ensures t == s
  {
    DecodesToOriginal(s, e);
    DecodableIsAscii(e);
    var ok;
    ok, t := Base64Unescape(e);
  }

  /** The encodings of "", "f", "fo" and "foo" in section 10 of RFC 4648. */
  lemma TestVectors()
    ensures Encode([]) == "" && Encode([102]) == "Zg==" && Encode([102, 111]) == "Zm8=" && Encode([102, 111, 111]) == "Zm9v"
  {
    OneByte();
    TwoBytes();
    ThreeBytes();
  }

  lemma OneByte()
    ensures Encode([102]) == "Zg=="
  {
    assert Pack([102]) == [25, 32];
    assert Symbols([25, 32]) == "Zg";
  }

  lemma TwoBytes()
    ensures Encode([102, 111]) == "Zm8="
  {
    assert Pack([102, 111]) == [25, 38, 60];
    assert Symbols([25, 38, 60]) == "Zm8";
  }

  lemma ThreeBytes()
    ensures Encode([102, 111, 111]) == "Zm9v"
  {
    var s: seq<byte> := [102, 111, 111];
    assert s[3..] == [];
    assert Quad(102, 111, 111) == [25, 38, 61, 47];
    assert Pack(s) == [25, 38, 61, 47];
    assert Symbols([25, 38, 61, 47]) == "Zm9v";
  }

  lemma DecodableIsAscii(e: string)
    requires Decodable(e)
    ensures forall i :: 0 <= i < |e| ==> e[i] < 128 as char
  {
    forall i | 0 <= i < |e| ensures e[i] < 128 as char {
      assert Skipped(e[i]) || Position(e[i]) < 64;
    }
  }
}
