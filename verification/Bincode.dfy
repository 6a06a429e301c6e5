/** The default layout of bincode 1.3: fixed-width little-endian integers, u64 lengths, u32 variant tags.
    A decoder consumes a prefix and returns the rest, so trailing bytes are allowed. */
module Bincode {
  import opened Bytes
  import opened Store
  import opened Tables

  datatype Parsed<+T> = Parsed(value: T, rest: Bytes) | Malformed

  // ---------------------------------------------------------------- integers

  function Pow256(w: nat): (p: nat)
    ensures p > 0
  {
    if w == 0 then 1 else 256 * Pow256(w - 1)
  }

  lemma Pow256Eight()
    ensures Pow256(4) == 0x1_0000_0000
    ensures Pow256(8) == U64_LIMIT
  {
    assert Pow256(4) == 256 * 256 * 256 * 256;
    assert Pow256(6) == 256 * 256 * Pow256(4);
  }

  function LittleEndian(n: nat, w: nat): (b: Bytes)
    ensures |b| == w
  {
    if w == 0 then [] else [n % 256] + LittleEndian(n / 256, w - 1)
  }

  function FromLittleEndian(b: Bytes): nat {
    if b == [] then 0 else b[0] + 256 * FromLittleEndian(b[1..])
  }

  function BigEndian(n: nat, w: nat): (b: Bytes)
    ensures |b| == w
  {
    if w == 0 then [] else BigEndian(n / 256, w - 1) + [n % 256]
  }

  function FromBigEndian(b: Bytes): nat {
    if b == [] then 0 else 256 * FromBigEndian(b[..|b| - 1]) + b[|b| - 1]
  }

  lemma {:induction false} LittleEndianRoundTrip(n: nat, w: nat)
    requires n < Pow256(w)
    ensures FromLittleEndian(LittleEndian(n, w)) == n
  {
    if w > 0 {
      LittleEndianRoundTrip(n / 256, w - 1);
      assert LittleEndian(n, w)[1..] == LittleEndian(n / 256, w - 1);
    }
  }

  lemma {:induction false} BigEndianRoundTrip(n: nat, w: nat)
    requires n < Pow256(w)
    ensures FromBigEndian(BigEndian(n, w)) == n
  {
    if w > 0 {
      BigEndianRoundTrip(n / 256, w - 1);
      assert BigEndian(n, w)[..w - 1] == BigEndian(n / 256, w - 1);
    }
  }

  /** A byte that is not zero weighs at least as much as its position says. */
  lemma {:induction false} LittleEndianAtLeast(b: Bytes, i: nat)
    requires i < |b| && b[i] != 0
    ensures FromLittleEndian(b) >= Pow256(i)
  {
    if i > 0 {
      assert b[1..][i - 1] == b[i];
      LittleEndianAtLeast(b[1..], i - 1);
    }
  }

  function DecodeInt(w: nat, b: Bytes): Parsed<nat> {
    if |b| < w then Malformed else Parsed(FromLittleEndian(b[..w]), b[w..])
  }

  lemma IntRoundTrip(n: nat, w: nat, rest: Bytes)
    requires n < Pow256(w)
    ensures DecodeInt(w, LittleEndian(n, w) + rest) == Parsed(n, rest)
  {
    LittleEndianRoundTrip(n, w);
    var b := LittleEndian(n, w) + rest;
    assert b[..w] == LittleEndian(n, w) && b[w..] == rest;
  }

  lemma IntExtends(w: nat, b: Bytes, q: Bytes)
    requires DecodeInt(w, b).Parsed?
    ensures DecodeInt(w, b + q) == Parsed(DecodeInt(w, b).value, DecodeInt(w, b).rest + q)
  {
    assert (b + q)[..w] == b[..w] && (b + q)[w..] == b[w..] + q;
  }

  // ---------------------------------------------------------------- byte vectors and strings

  function EncodeBytes(s: Bytes): Bytes {
    LittleEndian(|s|, 8) + s
  }

  function DecodeBytes(b: Bytes): Parsed<Bytes> {
    match DecodeInt(8, b)
    case Malformed => Malformed
    case Parsed(n, rest) => if |rest| < n then Malformed else Parsed(rest[..n], rest[n..])
  }

  lemma BytesRoundTrip(s: Bytes, rest: Bytes)
    requires |s| < U64_LIMIT
    ensures DecodeBytes(EncodeBytes(s) + rest) == Parsed(s, rest)
  {
    Pow256Eight();
    assert EncodeBytes(s) + rest == LittleEndian(|s|, 8) + (s + rest);
    IntRoundTrip(|s|, 8, s + rest);
  }

  lemma BytesExtends(b: Bytes, q: Bytes)
    requires DecodeBytes(b).Parsed?
    ensures DecodeBytes(b + q) == Parsed(DecodeBytes(b).value, DecodeBytes(b).rest + q)
  {
    IntExtends(8, b, q);
    var n, rest := DecodeInt(8, b).value, DecodeInt(8, b).rest;
    assert (rest + q)[..n] == rest[..n] && (rest + q)[n..] == rest[n..] + q;
  }

  function DecodeString(b: Bytes): Parsed<Bytes> {
    var p := DecodeBytes(b);
    if p.Parsed? && ValidUtf8(p.value) then p else Malformed
  }

  // ---------------------------------------------------------------- values

  function EncodeValue(v: Value): Bytes {
    match v
    case Data(bytes) => LittleEndian(0, 4) + EncodeBytes(bytes)
    case Tombstone => LittleEndian(1, 4)
  }

  function DecodeValue(b: Bytes): Parsed<Value> {
    match DecodeInt(4, b)
    case Malformed => Malformed
    case Parsed(tag, rest) =>
      if tag == 0 then
        match DecodeBytes(rest)
        case Malformed => Malformed
        case Parsed(bytes, rest') => Parsed(Data(bytes), rest')
      else if tag == 1 then Parsed(Tombstone, rest)
      else Malformed
  }

  predicate FitsValue(v: Value) { v.Data? ==> |v.bytes| < U64_LIMIT }

  lemma ValueRoundTrip(v: Value, rest: Bytes)
    requires FitsValue(v)
    ensures DecodeValue(EncodeValue(v) + rest) == Parsed(v, rest)
  {
    hide EncodeBytes, DecodeBytes, LittleEndian, DecodeInt;
    Pow256Eight();
    match v
    case Data(bytes) =>
      assert EncodeValue(v) + rest == LittleEndian(0, 4) + (EncodeBytes(bytes) + rest);
      IntRoundTrip(0, 4, EncodeBytes(bytes) + rest);
      BytesRoundTrip(bytes, rest);
    case Tombstone =>
      IntRoundTrip(1, 4, rest);
  }

  lemma ValueExtends(b: Bytes, q: Bytes)
    requires DecodeValue(b).Parsed?
    ensures DecodeValue(b + q) == Parsed(DecodeValue(b).value, DecodeValue(b).rest + q)
  {
    IntExtends(4, b, q);
    var p := DecodeInt(4, b);
    if p.value == 0 { BytesExtends(p.rest, q); }
  }

  /** A value cut short never decodes. */
  lemma TruncatedValueFails(v: Value, n: nat)
    requires FitsValue(v) && n < |EncodeValue(v)|
    ensures DecodeValue(EncodeValue(v)[..n]).Malformed?
  {
    hide EncodeValue, DecodeValue, FitsValue;
    var whole := EncodeValue(v);
    if DecodeValue(whole[..n]).Parsed? {
      ValueExtends(whole[..n], whole[n..]);
      assert whole[..n] + whole[n..] == whole == whole + [];
      ValueRoundTrip(v, []);
    }
  }

  // ---------------------------------------------------------------- operations and transactions

  function EncodeOp(op: Operation): Bytes {
    match op
    case Set(key, value) => LittleEndian(0, 4) + (EncodeBytes(key) + EncodeBytes(value))
    case Delete(key) => LittleEndian(1, 4) + EncodeBytes(key)
  }

  function DecodeOp(b: Bytes): Parsed<Operation> {
    match DecodeInt(4, b)
    case Malformed => Malformed
    case Parsed(tag, rest) =>
      if tag > 1 then Malformed
      else match DecodeString(rest)
        case Malformed => Malformed
        case Parsed(key, rest1) =>
          if tag == 1 then Parsed(Delete(key), rest1)
          else match DecodeBytes(rest1)
            case Malformed => Malformed
            case Parsed(value, rest2) => Parsed(Set(key, value), rest2)
  }

  /** What Rust's types guarantee of an operation: the key is UTF-8 and lengths fit in 64 bits. */
  predicate FitsOp(op: Operation) {
    && ValidUtf8(op.key) && |op.key| < U64_LIMIT
    && (op.Set? ==> |op.value| < U64_LIMIT)
  }

  lemma OpRoundTrip(op: Operation, rest: Bytes)
    requires FitsOp(op)
    ensures DecodeOp(EncodeOp(op) + rest) == Parsed(op, rest)
  {
    hide EncodeBytes, DecodeBytes, LittleEndian, DecodeInt, ValidUtf8;
    Pow256Eight();
    match op
    case Set(key, value) =>
      assert EncodeOp(op) + rest == LittleEndian(0, 4) + (EncodeBytes(key) + (EncodeBytes(value) + rest));
      IntRoundTrip(0, 4, EncodeBytes(key) + (EncodeBytes(value) + rest));
      BytesRoundTrip(key, EncodeBytes(value) + rest);
      BytesRoundTrip(value, rest);
    case Delete(key) =>
      assert EncodeOp(op) + rest == LittleEndian(1, 4) + (EncodeBytes(key) + rest);
      IntRoundTrip(1, 4, EncodeBytes(key) + rest);
      BytesRoundTrip(key, rest);
  }

  lemma OpExtends(b: Bytes, q: Bytes)
    requires DecodeOp(b).Parsed?
    ensures DecodeOp(b + q) == Parsed(DecodeOp(b).value, DecodeOp(b).rest + q)
  {
    IntExtends(4, b, q);
    var p := DecodeInt(4, b);
    BytesExtends(p.rest, q);
    if p.value == 0 { BytesExtends(DecodeString(p.rest).rest, q); }
  }

  function EncodeOps(ops: seq<Operation>): Bytes {
    if ops == [] then [] else EncodeOp(ops[0]) + EncodeOps(ops[1..])
  }

  function DecodeOps(n: nat, b: Bytes): Parsed<seq<Operation>> {
    if n == 0 then Parsed([], b)
    else match DecodeOp(b)
      case Malformed => Malformed
      case Parsed(op, rest) =>
        match DecodeOps(n - 1, rest)
        case Malformed => Malformed
        case Parsed(ops, rest') => Parsed([op] + ops, rest')
  }

  lemma {:induction false} OpsRoundTrip(ops: seq<Operation>, rest: Bytes)
    requires forall i :: 0 <= i < |ops| ==> FitsOp(ops[i])
    ensures DecodeOps(|ops|, EncodeOps(ops) + rest) == Parsed(ops, rest)
  {
    hide EncodeOp, DecodeOp, FitsOp;
    if ops == [] {
      assert EncodeOps(ops) + rest == rest;
    } else {
      var tail := EncodeOps(ops[1..]) + rest;
      assert EncodeOps(ops) + rest == EncodeOp(ops[0]) + tail;
      OpRoundTrip(ops[0], tail);
      OpsRoundTrip(ops[1..], rest);
      assert ops == [ops[0]] + ops[1..];
    }
  }

  lemma {:induction false} OpsExtends(n: nat, b: Bytes, q: Bytes)
    requires DecodeOps(n, b).Parsed?
    ensures DecodeOps(n, b + q) == Parsed(DecodeOps(n, b).value, DecodeOps(n, b).rest + q)
  {
    hide DecodeOp;
    if n > 0 {
      OpExtends(b, q);
      OpsExtends(n - 1, DecodeOp(b).rest, q);
    }
  }

  /** A `Uuid` is written as a byte slice, so its sixteen bytes carry a length. */
  function EncodeTx(tx: Transaction): Bytes {
    EncodeBytes(tx.id) + (LittleEndian(|tx.operations|, 8) + EncodeOps(tx.operations))
  }

  function DecodeUuid(b: Bytes): Parsed<Uuid> {
    var p := DecodeBytes(b);
    if p.Parsed? && |p.value| == 16 then p else Malformed
  }

  function DecodeTx(b: Bytes): Parsed<Transaction> {
    match DecodeUuid(b)
    case Malformed => Malformed
    case Parsed(id, rest) =>
      match DecodeInt(8, rest)
      case Malformed => Malformed
      case Parsed(n, rest1) =>
        match DecodeOps(n, rest1)
        case Malformed => Malformed
        case Parsed(ops, rest2) => Parsed(Transaction(id, ops), rest2)
  }

  predicate FitsTx(tx: Transaction) {
    && |tx.id| == 16 && |tx.operations| < U64_LIMIT
    && forall i :: 0 <= i < |tx.operations| ==> FitsOp(tx.operations[i])
  }

  lemma TxRoundTrip(tx: Transaction, rest: Bytes)
    requires FitsTx(tx)
    ensures DecodeTx(EncodeTx(tx) + rest) == Parsed(tx, rest)
  {
    hide EncodeBytes, DecodeBytes, LittleEndian, DecodeInt, EncodeOps, DecodeOps, FitsOp;
    Pow256Eight();
    var count, ops := LittleEndian(|tx.operations|, 8), EncodeOps(tx.operations);
    assert EncodeTx(tx) + rest == EncodeBytes(tx.id) + (count + (ops + rest));
    BytesRoundTrip(tx.id, count + (ops + rest));
    IntRoundTrip(|tx.operations|, 8, ops + rest);
    OpsRoundTrip(tx.operations, rest);
  }

  lemma TxExtends(b: Bytes, q: Bytes)
    requires DecodeTx(b).Parsed?
    ensures DecodeTx(b + q) == Parsed(DecodeTx(b).value, DecodeTx(b).rest + q)
  {
    BytesExtends(b, q);
    var id := DecodeUuid(b);
    IntExtends(8, id.rest, q);
    var n := DecodeInt(8, id.rest);
    OpsExtends(n.value, n.rest, q);
  }

  // ---------------------------------------------------------------- nothing else decodes

  lemma {:induction false} LittleEndianInverse(b: Bytes)
    ensures FromLittleEndian(b) < Pow256(|b|) && LittleEndian(FromLittleEndian(b), |b|) == b
  {
    if b != [] {
      LittleEndianInverse(b[1..]);
      assert b == [b[0]] + b[1..];
      DigitAndRest(b[0], FromLittleEndian(b[1..]));
    }
  }

  lemma DigitAndRest(d: byte, n: nat)
    ensures (d + 256 * n) % 256 == d && (d + 256 * n) / 256 == n
  {
  }

  lemma IntExact(w: nat, b: Bytes, n: nat, rest: Bytes)
    ensures DecodeInt(w, b) == Parsed(n, rest) <==> n < Pow256(w) && b == LittleEndian(n, w) + rest
  {
    hide LittleEndian, FromLittleEndian;
    if n < Pow256(w) && b == LittleEndian(n, w) + rest { IntRoundTrip(n, w, rest); }
    if |b| >= w {
      LittleEndianInverse(b[..w]);
      assert b == b[..w] + b[w..];
    }
  }

  lemma BytesExact(b: Bytes, s: Bytes, rest: Bytes)
    ensures DecodeBytes(b) == Parsed(s, rest) <==> |s| < U64_LIMIT && b == EncodeBytes(s) + rest
  {
    hide LittleEndian, DecodeInt;
    Pow256Eight();
    if |s| < U64_LIMIT && b == EncodeBytes(s) + rest { BytesRoundTrip(s, rest); }
    if DecodeBytes(b) == Parsed(s, rest) {
      var n, tail := DecodeInt(8, b).value, DecodeInt(8, b).rest;
      IntExact(8, b, n, tail);
      assert tail == s + rest;
    }
  }

  /** Exactly the encoded values decode. */
  lemma ValueExact(b: Bytes, v: Value, rest: Bytes)
    ensures DecodeValue(b) == Parsed(v, rest) <==> FitsValue(v) && b == EncodeValue(v) + rest
  {
    hide LittleEndian, DecodeInt, EncodeBytes, DecodeBytes;
    if FitsValue(v) && b == EncodeValue(v) + rest { ValueRoundTrip(v, rest); }
    if DecodeValue(b) == Parsed(v, rest) {
      var tag, tail := DecodeInt(4, b).value, DecodeInt(4, b).rest;
      IntExact(4, b, tag, tail);
      if v.Data? { BytesExact(tail, v.bytes, rest); }
    }
  }

  /** Exactly the encoded operations decode. */
  lemma OpExact(b: Bytes, op: Operation, rest: Bytes)
    ensures DecodeOp(b) == Parsed(op, rest) <==> FitsOp(op) && b == EncodeOp(op) + rest
  {
    hide LittleEndian, DecodeInt, EncodeBytes, DecodeBytes, ValidUtf8;
    if FitsOp(op) && b == EncodeOp(op) + rest { OpRoundTrip(op, rest); }
    if DecodeOp(b) == Parsed(op, rest) {
      var tag, tail := DecodeInt(4, b).value, DecodeInt(4, b).rest;
      IntExact(4, b, tag, tail);
      var rest1 := DecodeBytes(tail).rest;
      BytesExact(tail, op.key, rest1);
      if op.Set? { BytesExact(rest1, op.value, rest); }
    }
  }

  lemma {:induction false} OpsExact(n: nat, b: Bytes, ops: seq<Operation>, rest: Bytes)
    ensures DecodeOps(n, b) == Parsed(ops, rest) <==>
            |ops| == n && (forall i :: 0 <= i < |ops| ==> FitsOp(ops[i])) && b == EncodeOps(ops) + rest
  {
    hide DecodeOp, EncodeOp, FitsOp;
    if |ops| == n && (forall i :: 0 <= i < |ops| ==> FitsOp(ops[i])) && b == EncodeOps(ops) + rest {
      OpsRoundTrip(ops, rest);
    }
    if DecodeOps(n, b) == Parsed(ops, rest) {
      if n == 0 {
        assert EncodeOps(ops) + rest == rest;
      } else {
        var op, tail := DecodeOp(b).value, DecodeOp(b).rest;
        OpExact(b, op, tail);
        OpsExact(n - 1, tail, DecodeOps(n - 1, tail).value, rest);
        assert ops[1..] == DecodeOps(n - 1, tail).value;
      }
    }
  }

  /** Exactly the encoded transactions decode. */
  lemma TxExact(b: Bytes, tx: Transaction, rest: Bytes)
    ensures DecodeTx(b) == Parsed(tx, rest) <==> FitsTx(tx) && b == EncodeTx(tx) + rest
  {
    hide LittleEndian, DecodeInt, EncodeBytes, DecodeBytes, EncodeOps, DecodeOps, FitsOp;
    if FitsTx(tx) && b == EncodeTx(tx) + rest { TxRoundTrip(tx, rest); }
    if DecodeTx(b) == Parsed(tx, rest) {
      Pow256Eight();
      var tail := DecodeBytes(b).rest;
      BytesExact(b, tx.id, tail);
      var n, rest1 := DecodeInt(8, tail).value, DecodeInt(8, tail).rest;
      IntExact(8, tail, n, rest1);
      OpsExact(n, rest1, tx.operations, rest);
    }
  }
}
