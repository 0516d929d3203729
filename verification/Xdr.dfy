/** The memory streams of `spl-xdr.c`: a byte buffer with a cursor. */
module Xdr {
  import opened Wrappers
  import opened XdrSpec
  import opened XdrProofs

  /** What decoding the remaining elements adds to those already decoded. */
  ghost function Join(vs: seq<Value>, n: nat, p: Parsed<seq<Value>>): Parsed<seq<Value>> {
    if p.Fail? then Fail else Ok(vs + p.value, n + p.used)
  }

  lemma JoinNothing(p: Parsed<seq<Value>>)
    ensures Join([], 0, p) == p
  {
    if p.Ok? {
      assert [] + p.value == p.value;
    }
  }

  lemma JoinLast(s: Schema, b: seq<Byte>, count: nat, all: Parsed<seq<Value>>, todo: Parsed<seq<Value>>,
                 vs: seq<Value>, n: nat)
    requires count == 0 && Pending(s, b, count, todo) && all == Join(vs, n, todo)
    ensures all == Ok(vs, n)
  {
    assert vs + [] == vs;
  }

  lemma JoinNext(s: Schema, b: seq<Byte>, count: nat, vs: seq<Value>, n: nat)
    requires count > 0 && Decode(s, b).Ok? && Decode(s, b).used <= |b|
    ensures var p := Decode(s, b);
      Join(vs, n, DecodeAll(s, b, count)) ==
      Join(vs + [p.value], n + p.used, DecodeAll(s, b[p.used..], count - 1))
  {
    var p := Decode(s, b);
    var q := DecodeAll(s, b[p.used..], count - 1);
    if q.Ok? {
      assert vs + ([p.value] + q.value) == vs + [p.value] + q.value;
    }
  }

  lemma NoneFollow(s: Schema, b: seq<Byte>, count: nat)
    requires count > 0 && Decode(s, b).Fail?
    ensures DecodeAll(s, b, count) == Fail
  {
  }

  /** What is left to decode from `b`. */
  ghost predicate Pending(s: Schema, b: seq<Byte>, count: nat, todo: Parsed<seq<Value>>) {
    todo == DecodeAll(s, b, count)
  }

  lemma ItemTurn(s: Schema, b: seq<Byte>, c: seq<Byte>, count: nat, p: Parsed<Value>,
                 todo: Parsed<seq<Value>>, rest: Parsed<seq<Value>>, vs: seq<Value>, n: nat)
    requires count > 0 && p == Decode(s, b) && (p.Ok? ==> p.used <= |b| && c == b[p.used..])
    requires Pending(s, b, count, todo) && Pending(s, c, count - 1, rest)
    ensures p.Fail? ==> Join(vs, n, todo) == Fail
    ensures p.Ok? ==> Join(vs, n, todo) == Join(vs + [p.value], n + p.used, rest)
  {
    if p.Ok? {
      JoinNext(s, b, count, vs, n);
    } else {
      NoneFollow(s, b, count);
    }
  }

  /** From buffer `b0` with the cursor at `a0` to `b1` and `a1`: encoding `e` succeeds exactly if
      there is an encoding and it fits; then it is appended.  In any case nothing before the old
      cursor changes, and nothing after the new one. */
  ghost predicate Encoded(b0: seq<Byte>, a0: nat, b1: seq<Byte>, a1: nat, e: Option<seq<Byte>>, ok: bool) {
    && a0 <= a1 <= |b0| == |b1|
    && (ok <==> e.Some? && |e.value| <= |b0| - a0)
    && (ok ==> a1 == a0 + |e.value| && b1[..a1] == b0[..a0] + e.value)
    && b1[..a0] == b0[..a0]
    && b1[a1..] == b0[a1..]
  }

  lemma EncodedThen(b0: seq<Byte>, a0: nat, b1: seq<Byte>, a1: nat, b2: seq<Byte>, a2: nat,
                    d: Option<seq<Byte>>, e: Option<seq<Byte>>, ok: bool)
    requires Encoded(b0, a0, b1, a1, d, true) && Encoded(b1, a1, b2, a2, e, ok)
    ensures Encoded(b0, a0, b2, a2, Append(d, e), ok)
  {
    assert b2[..a0] == b2[..a1][..a0] && b1[..a0] == b1[..a1][..a0];
    assert b0[a2..] == b0[a1..][a2 - a1..] && b1[a2..] == b1[a1..][a2 - a1..];
    if ok {
      assert b0[..a0] + (d.value + e.value) == b0[..a0] + d.value + e.value;
    }
  }

  lemma EncodedNot(b0: seq<Byte>, a0: nat, b1: seq<Byte>, a1: nat, d: Option<seq<Byte>>, e: Option<seq<Byte>>)
    requires Encoded(b0, a0, b1, a1, d, false)
    ensures Encoded(b0, a0, b1, a1, Append(d, e), false)
  {
  }

  lemma EncodedNothing(b: seq<Byte>, a: nat)
    requires a <= |b|
    ensures Encoded(b, a, b, a, Some([]), true)
  {
    assert b[..a] + [] == b[..a];
  }

  lemma AppendAssoc(c: Option<seq<Byte>>, d: Option<seq<Byte>>, e: Option<seq<Byte>>)
    ensures Append(c, Append(d, e)) == Append(Append(c, d), e)
  {
    if c.Some? && d.Some? && e.Some? {
      assert c.value + (d.value + e.value) == c.value + d.value + e.value;
    }
  }

  lemma AppendNothing(e: Option<seq<Byte>>)
    ensures Append(Some([]), e) == e == Append(e, Some([]))
  {
    if e.Some? {
      assert [] + e.value == e.value == e.value + [];
    }
  }

  class Stream {
    const buf: array<Byte>
    var addr: nat

    ghost predicate Valid()
      reads this
    {
      addr <= buf.Length
    }

    /** The bytes from the cursor on. */
    ghost function Rest(): seq<Byte>
      requires Valid()
      reads this, buf
    {
      buf[addr..]
    }

    constructor (buf: array<Byte>)
      ensures Valid() && this.buf == buf && addr == 0
    {
      this.buf, addr := buf, 0;
    }

    // -------------------------------------------------------------- encoding

    /** `xdrmem_enc_uint32`. */
    method EncWord(v: int) returns (ok: bool)
      requires Valid() && 0 <= v < B32
      modifies `addr, buf
      ensures Encoded(old(buf[..]), old(addr), buf[..], addr, Some(Be32(v)), ok)
    {
      if addr + 4 > buf.Length {
        return false;
      }
      buf[addr], buf[addr + 1], buf[addr + 2], buf[addr + 3] :=
        v / 0x100_0000, v / 0x1_0000 % 0x100, v / 0x100 % 0x100, v % 0x100;
      addr := addr + 4;
      assert buf[..][..addr] == old(buf[..])[..old(addr)] + Be32(v);
      return true;
    }

    /** `xdrmem_enc_bytes`. */
    method EncBytes(b: seq<Byte>) returns (ok: bool)
      requires Valid() && |b| < B32
      modifies `addr, buf
      ensures Encoded(old(buf[..]), old(addr), buf[..], addr, EncodeBytes(b), ok)
    {
      var size := Roundup(|b|);
      if size < |b| || buf.Length - addr < size {
        return false;
      }
      forall i | 0 <= i < |b| {
        buf[addr + i] := b[i];
      }
      forall i | |b| <= i < size {
        buf[addr + i] := 0;
      }
      addr := addr + size;
      assert buf[..][..addr] == old(buf[..])[..old(addr)] + (b + Zeros(size - |b|));
      return true;
    }

    /** `xdrmem_enc_ulonglong`. */
    method EncHyper(n: nat) returns (ok: bool)
      requires Valid() && n < B32 * B32
      modifies `addr, buf
      ensures Encoded(old(buf[..]), old(addr), buf[..], addr, Some(Be32(n / B32) + Be32(n % B32)), ok)
    {
      ok := EncWord(n / B32);
      ghost var b1, a1 := buf[..], addr;
      if ok {
        ok := EncWord(n % B32);
        EncodedThen(old(buf[..]), old(addr), b1, a1, buf[..], addr,
          Some(Be32(n / B32)), Some(Be32(n % B32)), ok);
      }
    }

    /** `xdr_enc_string`. */
    method EncString(b: seq<Byte>, maxsize: nat) returns (ok: bool)
      requires Valid() && maxsize < B32 && 0 !in b
      modifies `addr, buf
      ensures Encoded(old(buf[..]), old(addr), buf[..], addr, Encode(Str(maxsize), Bytes(b)), ok)
    {
      if |b| > maxsize {
        return false;
      }
      ok := EncWord(|b|);
      ghost var b1, a1 := buf[..], addr;
      if ok {
        ok := EncBytes(b);
        EncodedThen(old(buf[..]), old(addr), b1, a1, buf[..], addr,
          Some(Be32(|b|)), EncodeBytes(b), ok);
      } else {
        EncodedNot(old(buf[..]), old(addr), b1, a1, Some(Be32(|b|)), EncodeBytes(b));
      }
    }

    method EncValue(s: Schema, v: Value) returns (ok: bool)
      requires Valid() && WellFormed(s) && Typed(s, v)
      modifies `addr, buf
      ensures Encoded(old(buf[..]), old(addr), buf[..], addr, Encode(s, v), ok)
      decreases s, 3
    {
      match s
      case Char => ok := EncWord(v.n);
      case Short => ok := EncWord(v.n);
      case Int => ok := EncWord(v.n);
      case Hyper => ok := EncHyper(v.n);
      case Opaque(cnt) => ok := EncBytes(v.b);
      case Str(maxsize) => ok := EncString(v.b, maxsize);
      case Array(limit, elem) => ok := EncArray(limit, elem, v.items);
      case Both(a, b) => ok := EncBoth(a, b, v.fst, v.snd);
    }

    method EncBoth(a: Schema, b: Schema, v: Value, w: Value) returns (ok: bool)
      requires Valid() && WellFormed(a) && WellFormed(b) && Typed(a, v) && Typed(b, w)
      modifies `addr, buf
      ensures Encoded(old(buf[..]), old(addr), buf[..], addr, Append(Encode(a, v), Encode(b, w)), ok)
      decreases Both(a, b), 2
    {
      ghost var d, e := Encode(a, v), Encode(b, w);
      ok := EncValue(a, v);
      ghost var b1, a1 := buf[..], addr;
      if ok {
        ok := EncValue(b, w);
        EncodedThen(old(buf[..]), old(addr), b1, a1, buf[..], addr, d, e, ok);
      } else {
        EncodedNot(old(buf[..]), old(addr), b1, a1, d, e);
      }
    }

    /** `xdr_enc_array`; `limit` is the smaller of its maximum and what fits a 32-bit size. */
    method EncArray(limit: nat, elem: Schema, vs: seq<Value>) returns (ok: bool)
      requires Valid() && limit < B32 && WellFormed(elem) && |vs| < B32 && TypedAll(elem, vs)
      modifies `addr, buf
      ensures Encoded(old(buf[..]), old(addr), buf[..], addr, Encode(Array(limit, elem), Items(vs)), ok)
      decreases Array(limit, elem), 2
    {
      if |vs| > limit {
        return false;
      }
      ghost var d, e := Some(Be32(|vs|)), EncodeAll(elem, vs);
      ok := EncWord(|vs|);
      ghost var b1, a1 := buf[..], addr;
      if ok {
        ok := EncItems(elem, vs);
        EncodedThen(old(buf[..]), old(addr), b1, a1, buf[..], addr, d, e, ok);
      } else {
        EncodedNot(old(buf[..]), old(addr), b1, a1, d, e);
      }
    }

    /** The loop of `xdr_enc_array`. */
    method EncItems(elem: Schema, vs: seq<Value>) returns (ok: bool)
      requires Valid() && WellFormed(elem) && TypedAll(elem, vs)
      modifies `addr, buf
      ensures Encoded(old(buf[..]), old(addr), buf[..], addr, EncodeAll(elem, vs), ok)
      decreases elem, 5
    {
      var i := 0;
      ghost var all := EncodeAll(elem, vs);
      ghost var done: Option<seq<Byte>> := Some([]);
      assert vs[0..] == vs;
      AppendNothing(all);
      EncodedNothing(buf[..], addr);
      while i < |vs|
        invariant 0 <= i <= |vs| && TypedAll(elem, vs[i..])
        invariant all == Append(done, EncodeAll(elem, vs[i..]))
        invariant Valid() && Encoded(old(buf[..]), old(addr), buf[..], addr, done, true)
        decreases |vs| - i
      {
        assert vs[i..][1..] == vs[i + 1..];
        ghost var rest := EncodeAll(elem, vs[i + 1..]);
        ok, done := EncItem(elem, vs[i], done, rest, old(buf[..]), old(addr));
        if !ok {
          return;
        }
        i := i + 1;
      }
      AppendNothing(done);
      ok := true;
    }

    /** One turn of the loop: `done` has been written since `b0` and `a0`, `rest` is to come. */
    method EncItem(elem: Schema, v: Value, ghost done: Option<seq<Byte>>, ghost rest: Option<seq<Byte>>,
                   ghost b0: seq<Byte>, ghost a0: nat)
        returns (ok: bool, ghost more: Option<seq<Byte>>)
      requires Valid() && WellFormed(elem) && Typed(elem, v)
      requires Encoded(b0, a0, buf[..], addr, done, true)
      modifies `addr, buf
      ensures Valid()
      ensures Append(done, Append(Encode(elem, v), rest)) == Append(more, rest)
      ensures ok ==> Encoded(b0, a0, buf[..], addr, more, true)
      ensures !ok ==> Encoded(b0, a0, buf[..], addr, Append(more, rest), false)
      decreases elem, 4
    {
      ghost var b1, a1, e := buf[..], addr, Encode(elem, v);
      ok := EncValue(elem, v);
      more := Append(done, e);
      AppendAssoc(done, e, rest);
      EncodedThen(b0, a0, b1, a1, buf[..], addr, done, e, ok);
      if !ok {
        EncodedNot(b0, a0, buf[..], addr, more, rest);
      }
    }

    // -------------------------------------------------------------- decoding

    /** `xdrmem_dec_uint32`. */
    method DecWord() returns (ok: bool, v: nat)
      requires Valid()
      modifies `addr
      ensures Valid() && old(addr) <= addr
      ensures ok <==> DecodeWord(old(Rest())).Ok?
      ensures ok ==> DecodeWord(old(Rest())) == Ok(v, addr - old(addr)) && v < B32
    {
      v := 0;
      if addr + 4 > buf.Length {
        return false, 0;
      }
      var here := buf[addr..];
      BytesOfWord(here);
      v := U32(here);
      addr := addr + 4;
      return true, v;
    }

    /** `xdrmem_dec_bytes`. */
    method DecBytes(cnt: nat) returns (ok: bool, b: seq<Byte>)
      requires Valid() && cnt < B32
      modifies `addr
      ensures Valid() && old(addr) <= addr
      ensures ok <==> DecodeBytes(old(Rest()), cnt).Ok?
      ensures ok ==> DecodeBytes(old(Rest()), cnt) == Ok(b, addr - old(addr))
    {
      var size := Roundup(cnt);
      b := [];
      if size < cnt || buf.Length - addr < size {
        return false, [];
      }
      var here := buf[addr..];
      b := here[..cnt];
      addr := addr + cnt;
      var pad := size - cnt;
      if here[cnt..size] != Zeros(pad) {
        return false, b;
      }
      addr := addr + pad;
      return true, b;
    }

    /** `xdrmem_dec_ulonglong`. */
    method DecHyper() returns (ok: bool, v: Value)
      requires Valid()
      modifies `addr
      ensures Valid() && old(addr) <= addr
      ensures ok <==> DecodeHyper(old(Rest())).Ok?
      ensures ok ==> DecodeHyper(old(Rest())) == Ok(v, addr - old(addr))
    {
      ghost var r := Rest();
      v := Num(0);
      var high, low := 0, 0;
      ok, high := DecWord();
      if ok {
        assert Rest() == r[4..];
        ok, low := DecWord();
        if ok {
          v := Num(high * B32 + low);
        }
      }
    }

    /** `xdr_dec_string`. */
    method DecString(maxsize: nat) returns (ok: bool, v: Value)
      requires Valid() && maxsize < B32
      modifies `addr
      ensures Valid() && old(addr) <= addr
      ensures ok <==> DecodeString(old(Rest()), maxsize).Ok?
      ensures ok ==> DecodeString(old(Rest()), maxsize) == Ok(v, addr - old(addr))
    {
      ghost var r := Rest();
      v := Num(0);
      var size := 0;
      ok, size := DecWord();
      if !ok || size > maxsize || size > UINT_MAX - 1 {
        return false, v;
      }
      assert Rest() == r[4..];
      var b := [];
      ok, b := DecBytes(size);
      if !ok || 0 in b {
        return false, v;
      }
      v := Bytes(b);
    }

    /** `xdrmem_dec_char`, `xdrmem_dec_ushort` and `xdrmem_dec_uint`. */
    method DecSmall(limit: int) returns (ok: bool, v: Value)
      requires Valid()
      modifies `addr
      ensures Valid() && old(addr) <= addr
      ensures ok <==> Small(DecodeWord(old(Rest())), limit).Ok?
      ensures ok ==> Small(DecodeWord(old(Rest())), limit) == Ok(v, addr - old(addr))
    {
      v := Num(0);
      var n := 0;
      ok, n := DecWord();
      if ok {
        if n > limit {
          ok := false;
        } else {
          v := Num(n);
        }
      }
    }

    method DecOpaque(cnt: nat) returns (ok: bool, v: Value)
      requires Valid() && cnt < B32
      modifies `addr
      ensures Valid() && old(addr) <= addr
      ensures ok <==> Decode(Opaque(cnt), old(Rest())).Ok?
      ensures ok ==> Decode(Opaque(cnt), old(Rest())) == Ok(v, addr - old(addr))
    {
      var b := [];
      ok, b := DecBytes(cnt);
      v := Bytes(b);
    }

    method DecValue(s: Schema) returns (ok: bool, v: Value)
      requires Valid() && WellFormed(s)
      modifies `addr
      ensures Valid() && old(addr) <= addr
      ensures ok <==> Decode(s, old(Rest())).Ok?
      ensures ok ==> Decode(s, old(Rest())) == Ok(v, addr - old(addr))
      decreases s, 3
    {
      match s
      case Char => ok, v := DecSmall(0xff);
      case Short => ok, v := DecSmall(0xffff);
      case Int => ok, v := DecSmall(UINT_MAX);
      case Hyper => ok, v := DecHyper();
      case Opaque(cnt) => ok, v := DecOpaque(cnt);
      case Str(maxsize) => ok, v := DecString(maxsize);
      case Array(limit, elem) => ok, v := DecArray(limit, elem);
      case Both(a, b) => ok, v := DecBoth(a, b);
    }

    method DecBoth(a: Schema, b: Schema) returns (ok: bool, v: Value)
      requires Valid() && WellFormed(a) && WellFormed(b)
      modifies `addr
      ensures Valid() && old(addr) <= addr
      ensures ok <==> Decode(Both(a, b), old(Rest())).Ok?
      ensures ok ==> Decode(Both(a, b), old(Rest())) == Ok(v, addr - old(addr))
      decreases Both(a, b), 2
    {
      ghost var r := Rest();
      ghost var p := Decode(a, r);
      BothDecodes(a, b, r);
      v := Num(0);
      ok, v := DecValue(a);
      if ok {
        assert Rest() == r[p.used..];
        ok, v := DecSecond(b, v, p, r);
      }
    }

    method DecSecond(b: Schema, x: Value, ghost p: Parsed<Value>, ghost r: seq<Byte>)
        returns (ok: bool, v: Value)
      requires Valid() && WellFormed(b) && p.Ok? && p.value == x && p.used <= |r| && Rest() == r[p.used..]
      modifies `addr
      ensures Valid() && old(addr) <= addr
      ensures ok <==> Sequel(p, b, r).Ok?
      ensures ok ==> Sequel(p, b, r) == Ok(v, p.used + addr - old(addr))
      decreases b, 4
    {
      ok, v := DecValue(b);
      v := Pair(x, v);
    }

    /** `xdr_dec_array`. */
    method DecArray(limit: nat, elem: Schema) returns (ok: bool, v: Value)
      requires Valid() && limit < B32 && WellFormed(elem)
      modifies `addr
      ensures Valid() && old(addr) <= addr
      ensures ok <==> Decode(Array(limit, elem), old(Rest())).Ok?
      ensures ok ==> Decode(Array(limit, elem), old(Rest())) == Ok(v, addr - old(addr))
      decreases Array(limit, elem), 2
    {
      ghost var r := Rest();
      v := Num(0);
      var size := 0;
      ok, size := DecWord();
      if !ok || size > limit {
        return false, v;
      }
      assert Rest() == r[4..];
      var vs := [];
      ok, vs := DecItems(elem, size);
      v := Items(vs);
    }

    /** The loop of `xdr_dec_array`. */
    method DecItems(elem: Schema, count: nat) returns (ok: bool, vs: seq<Value>)
      requires Valid() && WellFormed(elem)
      modifies `addr
      ensures Valid() && old(addr) <= addr
      ensures ok <==> DecodeAll(elem, old(Rest()), count).Ok?
      ensures ok ==> DecodeAll(elem, old(Rest()), count) == Ok(vs, addr - old(addr))
      decreases elem, 5
    {
      ghost var all := DecodeAll(elem, Rest(), count);
      ghost var todo := all;
      vs := [];
      var i := 0;
      JoinNothing(all);
      ok := true;
      while i < count
        invariant 0 <= i <= count && Valid() && old(addr) <= addr && ok
        invariant Pending(elem, Rest(), count - i, todo)
        invariant all == Join(vs, addr - old(addr), todo)
      {
        ok, vs, todo := DecItem(elem, vs, addr - old(addr), count - i, todo);
        if !ok {
          return;
        }
        i := i + 1;
      }
      JoinLast(elem, Rest(), count - i, all, todo, vs, addr - old(addr));
    }

    /** One turn of the loop: `left` elements are to be decoded, `n` bytes have been taken. */
    method DecItem(elem: Schema, vs: seq<Value>, ghost n: nat, ghost left: nat,
                   ghost todo: Parsed<seq<Value>>)
        returns (ok: bool, ws: seq<Value>, ghost rest: Parsed<seq<Value>>)
      requires Valid() && WellFormed(elem) && left > 0 && Pending(elem, Rest(), left, todo)
      modifies `addr
      ensures Valid() && old(addr) <= addr
      ensures Pending(elem, Rest(), left - 1, rest)
      ensures !ok ==> Join(vs, n, todo) == Fail
      ensures ok ==> Join(vs, n, todo) == Join(ws, n + addr - old(addr), rest)
      decreases elem, 4
    {
      ghost var r := Rest();
      var v := Num(0);
      ok, v := DecValue(elem);
      ws := vs + [v];
      rest := DecodeAll(elem, Rest(), left - 1);
      assert Rest() == r[addr - old(addr)..];
      ItemTurn(elem, r, Rest(), left, Decode(elem, r), todo, rest, vs, n);
    }
  }
}
