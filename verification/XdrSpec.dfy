/**
The external data representation that `spl-xdr.c` reads and writes: what the bytes of a value are,
and which bytes are those of a value.
*/
module XdrSpec {
  import opened Wrappers

  type Byte = x: int | 0 <= x < 256

  const B32: int := 0x1_0000_0000
  const UINT_MAX: int := 0xffff_ffff

  /** What a caller reads or writes: the routines, and `xdr_array` over an element routine, which
      may itself call several routines. */
  datatype Schema =
    | Char
    | Short
    | Int
    | Hyper
    | Opaque(cnt: nat)
    | Str(maxsize: nat)
    | Array(limit: nat, elem: Schema)
    | Both(first: Schema, second: Schema)

  /** `xdr_array` with its maximum and element size: more elements than fit a 32-bit size are
      refused as well. */
  function ArrayOf(maxsize: nat, elsize: nat, elem: Schema): Schema
    requires elsize >= 1
  {
    Array(if maxsize <= UINT_MAX / elsize then maxsize else UINT_MAX / elsize, elem)
  }

  datatype Value =
    | Num(n: nat)
    | Bytes(b: seq<Byte>)
    | Items(items: seq<Value>)
    | Pair(fst: Value, snd: Value)

  /** The counts and sizes are C unsigned integers, and elements have a size. */
  predicate WellFormed(s: Schema) {
    match s
    case Opaque(cnt) => cnt < B32
    case Str(maxsize) => maxsize < B32
    case Array(limit, elem) => limit < B32 && WellFormed(elem)
    case Both(a, b) => WellFormed(a) && WellFormed(b)
    case _ => true
  }

  /** What the C types of the arguments guarantee: ranges, lengths, and no NUL inside a string. */
  predicate Typed(s: Schema, v: Value)
    decreases s, 0, v
  {
    match s
    case Char => v.Num? && v.n <= 0xff
    case Short => v.Num? && v.n <= 0xffff
    case Int => v.Num? && v.n < B32
    case Hyper => v.Num? && v.n < B32 * B32
    case Opaque(cnt) => v.Bytes? && |v.b| == cnt
    case Str(_) => v.Bytes? && 0 !in v.b
    case Array(_, elem) => v.Items? && |v.items| < B32 && TypedAll(elem, v.items)
    case Both(a, b) => v.Pair? && Typed(a, v.fst) && Typed(b, v.snd)
  }

  predicate TypedAll(s: Schema, vs: seq<Value>)
    decreases s, |vs| + 1
  {
    |vs| == 0 || (Typed(s, vs[0]) && TypedAll(s, vs[1..]))
  }

  // ---------------------------------------------------------------- words and padding

  /** `cpu_to_be32`: the most significant byte first. */
  function Be32(v: int): seq<Byte>
    requires 0 <= v < B32
  {
    [v / 0x100_0000, v / 0x1_0000 % 0x100, v / 0x100 % 0x100, v % 0x100]
  }

  function U32(b: seq<Byte>): (r: nat)
    requires |b| >= 4
    ensures r < B32
  {
    var w: int, x: int, y: int, z: int := b[0], b[1], b[2], b[3];
    w * 0x100_0000 + x * 0x1_0000 + y * 0x100 + z
  }

  /** `roundup(cnt, 4)` on a 32-bit unsigned. */
  function Roundup(cnt: nat): nat { (cnt + 3) % B32 / 4 * 4 }

  function Zeros(n: nat): (r: seq<Byte>)
    ensures |r| == n && forall i :: 0 <= i < n ==> r[i] == 0
  {
    if n == 0 then [] else [0] + Zeros(n - 1)
  }

  // ---------------------------------------------------------------- encoding

  /** `xdrmem_enc_bytes`. */
  function EncodeBytes(b: seq<Byte>): Option<seq<Byte>> {
    if |b| >= B32 || Roundup(|b|) < |b| then None else Some(b + Zeros(Roundup(|b|) - |b|))
  }

  function Append(a: Option<seq<Byte>>, b: Option<seq<Byte>>): Option<seq<Byte>> {
    if a.Some? && b.Some? then Some(a.value + b.value) else None
  }

  function Encode(s: Schema, v: Value): Option<seq<Byte>>
    requires Typed(s, v)
    decreases s, 0, v
  {
    match s
    case Char => Some(Be32(v.n))
    case Short => Some(Be32(v.n))
    case Int => Some(Be32(v.n))
    case Hyper => Some(Be32(v.n / B32) + Be32(v.n % B32))
    case Opaque(cnt) => EncodeBytes(v.b)
    case Str(maxsize) =>
      if |v.b| > maxsize || |v.b| >= B32 then None
      else Append(Some(Be32(|v.b|)), EncodeBytes(v.b))
    case Array(limit, elem) =>
      if |v.items| > limit then None
      else Append(Some(Be32(|v.items|)), EncodeAll(elem, v.items))
    case Both(a, b) => Append(Encode(a, v.fst), Encode(b, v.snd))
  }

  function EncodeAll(s: Schema, vs: seq<Value>): Option<seq<Byte>>
    requires TypedAll(s, vs)
    decreases s, |vs| + 1
  {
    if |vs| == 0 then Some([]) else Append(Encode(s, vs[0]), EncodeAll(s, vs[1..]))
  }

  // ---------------------------------------------------------------- decoding

  /** A value and the number of bytes it took. */
  datatype Parsed<T> = Fail | Ok(value: T, used: nat)

  function DecodeWord(b: seq<Byte>): Parsed<nat> {
    if |b| < 4 then Fail else Ok(U32(b), 4)
  }

  function Small(p: Parsed<nat>, limit: int): Parsed<Value> {
    if p.Fail? || p.value > limit then Fail else Ok(Num(p.value), p.used)
  }

  /** `xdrmem_dec_bytes`: the padding must be zero. */
  function DecodeBytes(b: seq<Byte>, cnt: nat): Parsed<seq<Byte>> {
    var size := Roundup(cnt);
    if size < cnt || |b| < size || b[cnt..size] != Zeros(size - cnt) then Fail
    else Ok(b[..cnt], size)
  }

  function DecodeHyper(b: seq<Byte>): Parsed<Value> {
    if |b| < 8 then Fail else Ok(Num(U32(b) * B32 + U32(b[4..])), 8)
  }

  function DecodeString(b: seq<Byte>, maxsize: nat): Parsed<Value> {
    var len := DecodeWord(b);
    if len.Fail? || len.value > maxsize || len.value > UINT_MAX - 1 then Fail
    else
      var p := DecodeBytes(b[4..], len.value);
      if p.Fail? || 0 in p.value then Fail else Ok(Bytes(p.value), 4 + p.used)
  }

  function Decode(s: Schema, b: seq<Byte>): Parsed<Value>
    decreases s, 0, |b|
  {
    match s
    case Char => Small(DecodeWord(b), 0xff)
    case Short => Small(DecodeWord(b), 0xffff)
    case Int => Small(DecodeWord(b), UINT_MAX)
    case Hyper => DecodeHyper(b)
    case Opaque(cnt) =>
      var p := DecodeBytes(b, cnt);
      if p.Fail? then Fail else Ok(Bytes(p.value), p.used)
    case Str(maxsize) => DecodeString(b, maxsize)
    case Array(limit, elem) =>
      var len := DecodeWord(b);
      if len.Fail? || len.value > limit then Fail
      else
        var p := DecodeAll(elem, b[4..], len.value);
        if p.Fail? then Fail else Ok(Items(p.value), 4 + p.used)
    case Both(x, y) =>
      var p := Decode(x, b);
      if p.Fail? || p.used > |b| then Fail
      else
        var q := Decode(y, b[p.used..]);
        if q.Fail? then Fail else Ok(Pair(p.value, q.value), p.used + q.used)
  }

  function DecodeAll(s: Schema, b: seq<Byte>, count: nat): Parsed<seq<Value>>
    decreases s, count + 1, |b|
  {
    if count == 0 then Ok([], 0)
    else
      var p := Decode(s, b);
      if p.Fail? || p.used > |b| then Fail
      else
        var q := DecodeAll(s, b[p.used..], count - 1);
        if q.Fail? then Fail else Ok([p.value] + q.value, p.used + q.used)
  }
}
