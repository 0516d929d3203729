/** Encoding and decoding are inverse to each other. */
module XdrProofs {
  import Arith
  import opened Wrappers
  import opened XdrSpec

  // ---------------------------------------------------------------- words

  lemma WordOfBytes(v: int)
    requires 0 <= v < B32
    ensures U32(Be32(v)) == v
  {
    var a, b, c := v / 0x100, v / 0x1_0000, v / 0x100_0000;
    assert a / 0x100 == b && b / 0x100 == c;
    assert v == a * 0x100 + v % 0x100 && a == b * 0x100 + a % 0x100 && b == c * 0x100 + b % 0x100;
  }

  lemma BytesOfWord(b: seq<Byte>)
    requires |b| >= 4
    ensures Be32(U32(b)) == b[..4]
  {
    DigitsOf(b[0], b[1], b[2], b[3]);
    assert b[..4] == [b[0], b[1], b[2], b[3]];
  }

  lemma DigitsOf(w: int, x: int, y: int, z: int)
    requires 0 <= w < 256 && 0 <= x < 256 && 0 <= y < 256 && 0 <= z < 256
    ensures var v := w * 0x100_0000 + x * 0x1_0000 + y * 0x100 + z;
      && 0 <= v < B32 && v / 0x100_0000 == w && v / 0x1_0000 % 0x100 == x
      && v / 0x100 % 0x100 == y && v % 0x100 == z
  {
    var v := w * 0x100_0000 + x * 0x1_0000 + y * 0x100 + z;
    assert v / 0x100 == w * 0x1_0000 + x * 0x100 + y;
    assert v / 0x1_0000 == w * 0x100 + x;
  }

  /** Reading a word that was just written. */
  lemma WordBack(v: int, rest: seq<Byte>)
    requires 0 <= v < B32
    ensures DecodeWord(Be32(v) + rest) == Ok(v, 4) && (Be32(v) + rest)[4..] == rest
  {
    WordOfBytes(v);
    var b := Be32(v) + rest;
    assert b[0] == Be32(v)[0] && b[1] == Be32(v)[1] && b[2] == Be32(v)[2] && b[3] == Be32(v)[3];
  }

  // ---------------------------------------------------------------- padded bytes

  lemma RoundupIs(cnt: nat)
    requires cnt < B32
    ensures Roundup(cnt) < cnt <==> cnt > B32 - 4
    ensures cnt <= B32 - 4 ==> cnt <= Roundup(cnt) < cnt + 4 && Roundup(cnt) % 4 == 0
  {
  }

  lemma BytesBack(x: seq<Byte>, rest: seq<Byte>)
    requires EncodeBytes(x).Some?
    ensures DecodeBytes(EncodeBytes(x).value + rest, |x|) == Ok(x, |EncodeBytes(x).value|)
  {
    var e := EncodeBytes(x).value;
    var b := e + rest;
    var size := Roundup(|x|);
    assert |e| == size;
    assert b[|x|..size] == Zeros(size - |x|);
    assert b[..|x|] == x;
  }

  lemma BytesAgain(b: seq<Byte>, cnt: nat)
    requires cnt < B32 && DecodeBytes(b, cnt).Ok?
    ensures var p := DecodeBytes(b, cnt);
      p.used <= |b| && |p.value| == cnt && EncodeBytes(p.value) == Some(b[..p.used])
  {
    var size := Roundup(cnt);
    assert b[..size] == b[..cnt] + b[cnt..size];
  }

  // ---------------------------------------------------------------- decoding what was encoded

  lemma HyperBack(n: nat, rest: seq<Byte>)
    requires n < B32 * B32
    ensures DecodeHyper(Be32(n / B32) + Be32(n % B32) + rest) == Ok(Num(n), 8)
  {
    var hi, lo := Be32(n / B32), Be32(n % B32);
    WordBack(n / B32, lo + rest);
    WordBack(n % B32, rest);
    assert hi + lo + rest == hi + (lo + rest);
  }

  lemma StringBack(x: seq<Byte>, maxsize: nat, rest: seq<Byte>)
    requires |x| <= maxsize < B32 && 0 !in x && EncodeBytes(x).Some?
    ensures DecodeString(Be32(|x|) + EncodeBytes(x).value + rest, maxsize) ==
            Ok(Bytes(x), 4 + |EncodeBytes(x).value|)
  {
    var e := EncodeBytes(x).value;
    assert Be32(|x|) + e + rest == Be32(|x|) + (e + rest);
    WordBack(|x|, e + rest);
    BytesBack(x, rest);
    RoundupIs(|x|);
  }

  /** Decoding an encoding, whatever follows it, gives the value back and takes exactly the bytes
      that were written. */
  lemma {:induction false} DecodeEncode(s: Schema, v: Value, rest: seq<Byte>)
    requires WellFormed(s) && Typed(s, v) && Encode(s, v).Some?
    ensures Decode(s, Encode(s, v).value + rest) == Ok(v, |Encode(s, v).value|)
    decreases s, 0
  {
    match s
    case Char => WordBack(v.n, rest);
    case Short => WordBack(v.n, rest);
    case Int => WordBack(v.n, rest);
    case Hyper => HyperBack(v.n, rest);
    case Opaque(cnt) => BytesBack(v.b, rest);
    case Str(maxsize) => StringBack(v.b, maxsize, rest);
    case Array(limit, elem) =>
      var e := EncodeAll(elem, v.items).value;
      var n := |v.items|;
      assert Be32(n) + e + rest == Be32(n) + (e + rest);
      WordBack(n, e + rest);
      DecodeEncodeAll(elem, v.items, rest);
    case Both(a, b) =>
      var x, y := Encode(a, v.fst).value, Encode(b, v.snd).value;
      assert x + y + rest == x + (y + rest);
      DecodeEncode(a, v.fst, y + rest);
      assert (x + (y + rest))[|x|..] == y + rest;
      DecodeEncode(b, v.snd, rest);
  }

  /** Decoding a list takes the first value and then the others. */
  lemma DecodeAllOf(s: Schema, b: seq<Byte>, vs: seq<Value>, used: nat, more: nat)
    requires |vs| > 0 && used <= |b| && Decode(s, b) == Ok(vs[0], used)
    requires DecodeAll(s, b[used..], |vs| - 1) == Ok(vs[1..], more)
    ensures DecodeAll(s, b, |vs|) == Ok(vs, used + more)
  {
    assert [vs[0]] + vs[1..] == vs;
  }

  lemma Regroup(x: seq<Byte>, y: seq<Byte>, rest: seq<Byte>)
    ensures x + y + rest == x + (y + rest) && (x + y + rest)[|x|..] == y + rest
  {
  }

  lemma EncodeAllOf(s: Schema, vs: seq<Value>)
    requires TypedAll(s, vs) && |vs| > 0 && EncodeAll(s, vs).Some?
    ensures Encode(s, vs[0]).Some? && EncodeAll(s, vs[1..]).Some?
    ensures EncodeAll(s, vs).value == Encode(s, vs[0]).value + EncodeAll(s, vs[1..]).value
  {
  }

  lemma {:induction false} DecodeEncodeAll(s: Schema, vs: seq<Value>, rest: seq<Byte>)
    requires WellFormed(s) && TypedAll(s, vs) && EncodeAll(s, vs).Some?
    ensures DecodeAll(s, EncodeAll(s, vs).value + rest, |vs|) == Ok(vs, |EncodeAll(s, vs).value|)
    decreases s, |vs| + 1
  {
    if |vs| > 0 {
      EncodeAllOf(s, vs);
      var x, y := Encode(s, vs[0]).value, EncodeAll(s, vs[1..]).value;
      DecodeEncode(s, vs[0], y + rest);
      DecodeEncodeAll(s, vs[1..], rest);
      Regroup(x, y, rest);
      DecodeAllOf(s, x + y + rest, vs, |x|, |y|);
    }
  }

  // ---------------------------------------------------------------- encoding what was decoded

  lemma HyperAgain(b: seq<Byte>)
    requires |b| >= 8
    ensures var n := U32(b) * B32 + U32(b[4..]);
      0 <= n < B32 * B32 && Be32(n / B32) + Be32(n % B32) == b[..8]
  {
    BytesOfWord(b);
    BytesOfWord(b[4..]);
    HalvesOf(U32(b), U32(b[4..]));
    assert b[..8] == b[..4] + b[4..][..4];
  }

  lemma HalvesOf(hi: int, lo: int)
    requires 0 <= hi < B32 && 0 <= lo < B32
    ensures var n := hi * B32 + lo; 0 <= n < B32 * B32 && n / B32 == hi && n % B32 == lo
  {
  }

  lemma StringAgain(b: seq<Byte>, maxsize: nat)
    requires maxsize < B32 && DecodeString(b, maxsize).Ok?
    ensures var p := DecodeString(b, maxsize);
      && p.used <= |b| && Typed(Str(maxsize), p.value)
      && Encode(Str(maxsize), p.value) == Some(b[..p.used])
  {
    var len := U32(b);
    BytesOfWord(b);
    BytesAgain(b[4..], len);
    var p := DecodeBytes(b[4..], len);
    assert b[..4 + p.used] == b[..4] + b[4..][..p.used];
  }

  /** If the bytes decode, the value encodes to the bytes it took. */
  ghost predicate Again(s: Schema, b: seq<Byte>) {
    var p := Decode(s, b);
    p.Ok? ==> p.used <= |b| && Typed(s, p.value) && Encode(s, p.value) == Some(b[..p.used])
  }

  ghost predicate AgainAll(s: Schema, b: seq<Byte>, count: nat) {
    var p := DecodeAll(s, b, count);
    p.Ok? ==>
      && p.used <= |b| && |p.value| == count && TypedAll(s, p.value)
      && EncodeAll(s, p.value) == Some(b[..p.used])
  }

  lemma SplitPrefix(b: seq<Byte>, m: nat, n: nat)
    requires m <= |b| && m + n <= |b|
    ensures b[..m + n] == b[..m] + b[m..][..n]
  {
  }

  lemma WordAgain(s: Schema, b: seq<Byte>)
    requires s == Char || s == Short || s == Int
    ensures Again(s, b)
  {
    if |b| >= 4 {
      BytesOfWord(b);
    }
  }

  lemma BothEncodes(x: Schema, y: Schema, v: Value, w: Value)
    requires Typed(x, v) && Typed(y, w)
    ensures Typed(Both(x, y), Pair(v, w))
    ensures Encode(Both(x, y), Pair(v, w)) == Append(Encode(x, v), Encode(y, w))
  {
  }

  lemma AppendBytes(d: Option<seq<Byte>>, e: Option<seq<Byte>>, b: seq<Byte>, m: nat, n: nat)
    requires m <= |b| && m + n <= |b| && d == Some(b[..m]) && e == Some(b[m..][..n])
    ensures Append(d, e) == Some(b[..m + n])
  {
    SplitPrefix(b, m, n);
  }

  /** The bytes are the encoding of the value. */
  ghost predicate Writes(s: Schema, v: Value, b: seq<Byte>) { Typed(s, v) && Encode(s, v) == Some(b) }

  lemma BothWrites(x: Schema, y: Schema, v: Value, w: Value, b: seq<Byte>, m: nat, n: nat)
    requires m <= |b| && m + n <= |b| && Writes(x, v, b[..m]) && Writes(y, w, b[m..][..n])
    ensures Writes(Both(x, y), Pair(v, w), b[..m + n])
  {
    BothEncodes(x, y, v, w);
    AppendBytes(Encode(x, v), Encode(y, w), b, m, n);
  }

  lemma BothDecodes(x: Schema, y: Schema, b: seq<Byte>)
    ensures Decode(Both(x, y), b) == Sequel(Decode(x, b), y, b)
  {
  }

  /** Decoding the second after the first. */
  ghost function Sequel(p: Parsed<Value>, y: Schema, b: seq<Byte>): Parsed<Value> {
    if p.Fail? || p.used > |b| then Fail
    else
      var q := Decode(y, b[p.used..]);
      if q.Fail? then Fail else Ok(Pair(p.value, q.value), p.used + q.used)
  }

  lemma SequelAgain(x: Schema, y: Schema, b: seq<Byte>, p: Parsed<Value>, r: Parsed<Value>)
    requires p.Ok? ==> p.used <= |b| && Writes(x, p.value, b[..p.used]) && Again(y, b[p.used..])
    requires r == Sequel(p, y, b)
    ensures r.Ok? ==> r.used <= |b| && Writes(Both(x, y), r.value, b[..r.used])
  {
    if r.Ok? {
      var q := Decode(y, b[p.used..]);
      BothWrites(x, y, p.value, q.value, b, p.used, q.used);
    }
  }

  lemma ArrayAgain(limit: nat, elem: Schema, b: seq<Byte>)
    requires |b| >= 4 ==> AgainAll(elem, b[4..], U32(b))
    ensures Again(Array(limit, elem), b)
  {
    var s := Array(limit, elem);
    if Decode(s, b).Ok? {
      BytesOfWord(b);
      var p := DecodeAll(elem, b[4..], U32(b));
      SplitPrefix(b, 4, p.used);
      assert Decode(s, b) == Ok(Items(p.value), 4 + p.used);
    }
  }

  lemma NextAgain(s: Schema, b: seq<Byte>, count: nat)
    requires count > 0 && Again(s, b)
    requires Decode(s, b).Ok? && Decode(s, b).used <= |b| ==> AgainAll(s, b[Decode(s, b).used..], count - 1)
    ensures AgainAll(s, b, count)
  {
    var p := Decode(s, b);
    if DecodeAll(s, b, count).Ok? {
      var q := DecodeAll(s, b[p.used..], count - 1);
      var vs := [p.value] + q.value;
      assert vs[0] == p.value && vs[1..] == q.value;
      SplitPrefix(b, p.used, q.used);
      assert DecodeAll(s, b, count) == Ok(vs, p.used + q.used);
    }
  }

  /** Whatever decodes is the encoding of what it decodes to: the bytes come back the same. */
  lemma {:induction false} EncodeDecode(s: Schema, b: seq<Byte>)
    requires WellFormed(s)
    ensures Again(s, b)
    decreases s, 0
  {
    match s
    case Hyper =>
      if |b| >= 8 {
        HyperAgain(b);
      }
    case Opaque(cnt) =>
      if DecodeBytes(b, cnt).Ok? {
        BytesAgain(b, cnt);
      }
    case Str(maxsize) =>
      if DecodeString(b, maxsize).Ok? {
        StringAgain(b, maxsize);
      }
    case Array(limit, elem) =>
      if |b| >= 4 {
        EncodeDecodeAll(elem, b[4..], U32(b));
      }
      ArrayAgain(limit, elem, b);
    case Both(x, y) =>
      var p := Decode(x, b);
      EncodeDecode(x, b);
      if p.Ok? {
        EncodeDecode(y, b[p.used..]);
      }
      BothDecodes(x, y, b);
      SequelAgain(x, y, b, p, Decode(s, b));
    case _ => WordAgain(s, b);
  }

  lemma {:induction false} EncodeDecodeAll(s: Schema, b: seq<Byte>, count: nat)
    requires WellFormed(s)
    ensures AgainAll(s, b, count)
    decreases s, count + 1
  {
    if count > 0 {
      EncodeDecode(s, b);
      if Decode(s, b).Ok? && Decode(s, b).used <= |b| {
        EncodeDecodeAll(s, b[Decode(s, b).used..], count - 1);
      }
      NextAgain(s, b, count);
    }
  }

  /** The limit of an array routine lets through exactly the counts within the maximum whose
      elements have a total size that fits 32 bits, so the allocation cannot wrap. */
  lemma ArrayFits(maxsize: nat, elsize: nat, elem: Schema, count: nat)
    requires elsize >= 1
    ensures count <= ArrayOf(maxsize, elsize, elem).limit <==>
            count <= maxsize && count * elsize <= UINT_MAX
  {
    Arith.DivAtLeast(UINT_MAX, elsize, count);
  }

  // ---------------------------------------------------------------- the codec

  /** A stretch of bytes decodes to a value exactly if it starts with the value's encoding. */
  lemma DecodesIffEncodes(s: Schema, b: seq<Byte>, v: Value, n: nat)
    requires WellFormed(s)
    ensures Decode(s, b) == Ok(v, n) <==>
            Typed(s, v) && n <= |b| && Encode(s, v) == Some(b[..n])
  {
    if Decode(s, b) == Ok(v, n) {
      EncodeDecode(s, b);
    }
    if Typed(s, v) && n <= |b| && Encode(s, v) == Some(b[..n]) {
      DecodeEncode(s, v, b[n..]);
      assert b[..n] + b[n..] == b;
    }
  }

  /** No two values have encodings of which one starts with the other. */
  lemma EncodingIsPrefixFree(s: Schema, v: Value, w: Value, rest: seq<Byte>)
    requires WellFormed(s) && Typed(s, v) && Typed(s, w)
    requires Encode(s, v).Some? && Encode(s, w) == Some(Encode(s, v).value + rest)
    ensures v == w && |rest| == 0
  {
    DecodeEncode(s, v, rest);
    DecodeEncode(s, w, []);
    assert Encode(s, w).value + [] == Encode(s, w).value;
  }

  // ---------------------------------------------------------------- the form of the bytes

  ghost predicate InUnits(e: Option<seq<Byte>>) { e.Some? ==> |e.value| % 4 == 0 }

  lemma AppendInUnits(d: Option<seq<Byte>>, e: Option<seq<Byte>>)
    requires InUnits(d) && InUnits(e)
    ensures InUnits(Append(d, e))
  {
  }

  lemma BytesInUnits(b: seq<Byte>)
    ensures InUnits(EncodeBytes(b))
  {
    if |b| < B32 {
      RoundupIs(|b|);
    }
  }

  /** Every encoding takes a whole number of four-byte units. */
  lemma {:induction false} EncodingInUnits(s: Schema, v: Value)
    requires Typed(s, v)
    ensures InUnits(Encode(s, v))
    decreases s, 0
  {
    match s
    case Opaque(cnt) => BytesInUnits(v.b);
    case Str(maxsize) =>
      BytesInUnits(v.b);
      if |v.b| < B32 {
        AppendInUnits(Some(Be32(|v.b|)), EncodeBytes(v.b));
      }
    case Array(limit, elem) =>
      EncodingsInUnits(elem, v.items);
      AppendInUnits(Some(Be32(|v.items|)), EncodeAll(elem, v.items));
    case Both(a, b) =>
      EncodingInUnits(a, v.fst);
      EncodingInUnits(b, v.snd);
      AppendInUnits(Encode(a, v.fst), Encode(b, v.snd));
    case _ =>
  }

  lemma {:induction false} EncodingsInUnits(s: Schema, vs: seq<Value>)
    requires TypedAll(s, vs)
    ensures InUnits(EncodeAll(s, vs))
    decreases s, |vs| + 1
  {
    if |vs| > 0 {
      EncodingInUnits(s, vs[0]);
      EncodingsInUnits(s, vs[1..]);
      AppendInUnits(Encode(s, vs[0]), EncodeAll(s, vs[1..]));
    }
  }

  /** Lexicographic order on byte strings of one length. */
  predicate Before(a: seq<Byte>, b: seq<Byte>)
    requires |a| == |b|
  {
    |a| > 0 && (a[0] < b[0] || (a[0] == b[0] && Before(a[1..], b[1..])))
  }

  /** The most significant byte comes first: byte strings of words are ordered as the words are. */
  lemma WordOrder(v: int, w: int)
    requires 0 <= v < w < B32
    ensures Before(Be32(v), Be32(w))
  {
    WordOfBytes(v);
    WordOfBytes(w);
    var a, b := Be32(v), Be32(w);
    assert Before(a[3..], b[3..]) <==> a[3] < b[3];
    assert a[2..][1..] == a[3..] && b[2..][1..] == b[3..];
    assert a[1..][1..] == a[2..] && b[1..][1..] == b[2..];
    assert Before(a[2..], b[2..]) <==> a[2] < b[2] || (a[2] == b[2] && a[3] < b[3]);
    assert Before(a[1..], b[1..]) <==> a[1] < b[1] || (a[1] == b[1] && Before(a[2..], b[2..]));
  }

  lemma {:induction false} BeforeAppend(a: seq<Byte>, b: seq<Byte>, x: seq<Byte>, y: seq<Byte>)
    requires |a| == |b| && |x| == |y| && (Before(a, b) || (a == b && Before(x, y)))
    ensures Before(a + x, b + y)
  {
    if |a| == 0 {
      assert a + x == x && b + y == y;
    } else {
      assert (a + x)[1..] == a[1..] + x && (b + y)[1..] == b[1..] + y;
      if a[0] == b[0] {
        BeforeAppend(a[1..], b[1..], x, y);
      }
    }
  }

  /** And the more significant word of a hyper comes first. */
  lemma HyperOrder(v: nat, w: nat)
    requires v < w < B32 * B32
    ensures Before(Encode(Hyper, Num(v)).value, Encode(Hyper, Num(w)).value)
  {
    if v / B32 < w / B32 {
      WordOrder(v / B32, w / B32);
    } else {
      WordOrder(v % B32, w % B32);
    }
    BeforeAppend(Be32(v / B32), Be32(w / B32), Be32(v % B32), Be32(w % B32));
  }

  // ---------------------------------------------------------------- when there is an encoding

  /** The longest byte string whose padded length fits 32 bits. */
  const LONGEST: int := 0xffff_fffc

  /** Which values can be encoded: all numbers; byte strings up to the longest, and within the
      maximum if they are strings; arrays within the limit whose elements can be encoded. */
  ghost predicate Encodable(s: Schema, v: Value)
    requires Typed(s, v)
    decreases s, 0, v
  {
    match s
    case Opaque(_) => |v.b| <= LONGEST
    case Str(maxsize) => |v.b| <= maxsize && |v.b| <= LONGEST
    case Array(limit, elem) => |v.items| <= limit && AllEncodable(elem, v.items)
    case Both(a, b) => Encodable(a, v.fst) && Encodable(b, v.snd)
    case _ => true
  }

  ghost predicate AllEncodable(s: Schema, vs: seq<Value>)
    requires TypedAll(s, vs)
    decreases s, |vs| + 1
  {
    |vs| == 0 || (Encodable(s, vs[0]) && AllEncodable(s, vs[1..]))
  }

  lemma BytesEncodeIff(b: seq<Byte>)
    ensures EncodeBytes(b).Some? <==> |b| <= LONGEST
  {
    if |b| < B32 {
      RoundupIs(|b|);
    }
  }

  lemma ArrayEncodesIff(limit: nat, elem: Schema, v: Value)
    requires Typed(Array(limit, elem), v)
    ensures Encode(Array(limit, elem), v).Some? <==> |v.items| <= limit && EncodeAll(elem, v.items).Some?
  {
  }

  lemma StringEncodesIff(maxsize: nat, v: Value)
    requires maxsize < B32 && Typed(Str(maxsize), v)
    ensures Encode(Str(maxsize), v).Some? <==> |v.b| <= maxsize && |v.b| <= LONGEST
  {
    BytesEncodeIff(v.b);
  }

  /** A value has an encoding if and only if it is encodable. */
  lemma {:induction false} EncodesIff(s: Schema, v: Value)
    requires WellFormed(s) && Typed(s, v)
    ensures Encode(s, v).Some? <==> Encodable(s, v)
    decreases s, 0
  {
    match s
    case Opaque(_) => BytesEncodeIff(v.b);
    case Str(maxsize) => StringEncodesIff(maxsize, v);
    case Array(limit, elem) =>
      ArrayEncodesIff(limit, elem, v);
      EncodesAllIff(elem, v.items);
    case Both(a, b) =>
      BothEncodes(a, b, v.fst, v.snd);
      EncodesIff(a, v.fst);
      EncodesIff(b, v.snd);
    case _ =>
  }

  lemma {:induction false} EncodesAllIff(s: Schema, vs: seq<Value>)
    requires WellFormed(s) && TypedAll(s, vs)
    ensures EncodeAll(s, vs).Some? <==> AllEncodable(s, vs)
    decreases s, |vs| + 1
  {
    if |vs| > 0 {
      EncodesIff(s, vs[0]);
      EncodesAllIff(s, vs[1..]);
    }
  }

  /** Everything that is encodable can be decoded back: nothing the encoder accepts is refused. */
  lemma EncodableDecodes(s: Schema, v: Value, rest: seq<Byte>)
    requires WellFormed(s) && Typed(s, v) && Encodable(s, v)
    ensures Encode(s, v).Some? && Decode(s, Encode(s, v).value + rest) == Ok(v, |Encode(s, v).value|)
  {
    EncodesIff(s, v);
    DecodeEncode(s, v, rest);
  }

  // ---------------------------------------------------------------- the wire form

  /** Padded bytes are the bytes themselves and then zeros, fewer than four. */
  lemma BytesForm(b: seq<Byte>)
    requires EncodeBytes(b).Some?
    ensures var e := EncodeBytes(b).value;
      && |b| <= |e| < |b| + 4 && |e| % 4 == 0 && e[..|b|] == b
      && forall i :: |b| <= i < |e| ==> e[i] == 0
  {
    RoundupIs(|b|);
  }

  /** Chars and shorts travel as ints; a string is its length as an int and then opaque bytes; an
      array is its length as an int and then its elements. */
  lemma WireForms(v: Value, maxsize: nat, limit: nat, elem: Schema)
    ensures Typed(Char, v) ==> Typed(Int, v) && Encode(Char, v) == Encode(Int, v)
    ensures Typed(Short, v) ==> Typed(Int, v) && Encode(Short, v) == Encode(Int, v)
    ensures Typed(Str(maxsize), v) && |v.b| <= maxsize && |v.b| < B32 ==>
      Encode(Str(maxsize), v) == Append(Encode(Int, Num(|v.b|)), Encode(Opaque(|v.b|), v))
    ensures Typed(Array(limit, elem), v) && |v.items| <= limit ==>
      Encode(Array(limit, elem), v) == Append(Encode(Int, Num(|v.items|)), EncodeAll(elem, v.items))
  {
  }

  /** The order of the numbers is the order of their bytes for all three. */
  lemma NumberOrder(s: Schema, v: nat, w: nat)
    requires (s == Char || s == Short || s == Int) && v < w && Typed(s, Num(w))
    ensures Typed(s, Num(v)) && |Encode(s, Num(v)).value| == |Encode(s, Num(w)).value| == 4
    ensures Before(Encode(s, Num(v)).value, Encode(s, Num(w)).value)
  {
    WordOrder(v, w);
  }
}
