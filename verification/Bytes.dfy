/** Byte strings: the order `BTreeMap<String, _>` and `PathBuf` use, sorted key lists,
    UTF-8 well-formedness and decimal numerals. */
module Bytes {

  type byte = x: int | 0 <= x < 256
  type Bytes = seq<byte>

  datatype Option<+T> = None | Some(value: T)

  const U64_LIMIT := 0x1_0000_0000_0000_0000

  function Min(a: nat, b: nat): nat { if a < b then a else b }

  /** ASCII text as bytes. */
  function Ascii(text: string): (b: Bytes)
    requires forall i :: 0 <= i < |text| ==> text[i] as int < 128
    ensures |b| == |text| && forall i :: 0 <= i < |text| ==> b[i] == text[i] as int
  {
    seq(|text|, i requires 0 <= i < |text| => text[i] as int)
  }

  // ---------------------------------------------------------------- order

  /** Strict lexicographic order on bytes, the order of Rust's `str` and `OsStr`. */
  predicate Less(a: Bytes, b: Bytes) {
    b != [] && (a == [] || a[0] < b[0] || (a[0] == b[0] && Less(a[1..], b[1..])))
  }

  lemma {:induction false} LessIrreflexive(a: Bytes)
    ensures !Less(a, a)
  {
    if a != [] { LessIrreflexive(a[1..]); }
  }

  lemma {:induction false} LessTransitive(a: Bytes, b: Bytes, c: Bytes)
    requires Less(a, b) && Less(b, c)
    ensures Less(a, c)
  {
    if a != [] && a[0] == b[0] == c[0] { LessTransitive(a[1..], b[1..], c[1..]); }
  }

  lemma {:induction false} LessTotal(a: Bytes, b: Bytes)
    ensures Less(a, b) || a == b || Less(b, a)
  {
    if a != [] && b != [] && a[0] == b[0] {
      LessTotal(a[1..], b[1..]);
      assert a == [a[0]] + a[1..] && b == [b[0]] + b[1..];
    }
  }

  lemma LessAsymmetric(a: Bytes, b: Bytes)
    requires Less(a, b)
    ensures !Less(b, a) && a != b
  {
    LessIrreflexive(a);
    if Less(b, a) { LessTransitive(a, b, a); }
  }

  /** `a` ends, or has the smaller byte, as an unsigned number, where the two first differ. */
  predicate DifferAt(a: Bytes, b: Bytes, i: int) {
    0 <= i <= |a| && i < |b| && a[..i] == b[..i] && (i == |a| || a[i] < b[i])
  }

  lemma {:induction false} DifferenceMakesLess(a: Bytes, b: Bytes, i: int)
    requires DifferAt(a, b, i)
    ensures Less(a, b)
    decreases i
  {
    if i > 0 {
      assert a[..i][0] == b[..i][0];
      assert a[1..][..i - 1] == a[..i][1..] && b[1..][..i - 1] == b[..i][1..];
      DifferenceMakesLess(a[1..], b[1..], i - 1);
    }
  }

  lemma {:induction false} LessHasDifference(a: Bytes, b: Bytes) returns (i: int)
    requires Less(a, b)
    ensures DifferAt(a, b, i)
  {
    i := 0;
    if a != [] && a[0] == b[0] {
      var j := LessHasDifference(a[1..], b[1..]);
      i := j + 1;
      assert a[..i] == [a[0]] + a[1..][..j] && b[..i] == [b[0]] + b[1..][..j];
    }
  }

  /** The order is decided where two strings first differ. */
  lemma LessExact(a: Bytes, b: Bytes)
    ensures Less(a, b) <==> exists i :: DifferAt(a, b, i)
  {
    hide Less, DifferAt;
    if Less(a, b) {
      var i := LessHasDifference(a, b);
    }
    forall i | DifferAt(a, b, i) ensures Less(a, b) { DifferenceMakesLess(a, b, i); }
  }

  /** Nothing lies between a string and the same string with a zero byte behind it. */
  lemma {:induction false} NothingBetween(k: Bytes, x: Bytes)
    ensures !Less(x, k) && Less(x, k + [0]) <==> x == k
  {
    if k == [] {
      assert k + [0] == [0];
      if x != [] && x[0] == 0 { assert [0][1..] == []; }
    } else if x != [] && x[0] == k[0] {
      assert (k + [0])[1..] == k[1..] + [0];
      NothingBetween(k[1..], x[1..]);
      assert x == [x[0]] + x[1..] && k == [k[0]] + k[1..];
    }
  }

  predicate StrictlySorted(ks: seq<Bytes>) {
    forall i, j :: 0 <= i < j < |ks| ==> Less(ks[i], ks[j])
  }

  predicate IsLeast(k: Bytes, s: set<Bytes>) {
    k in s && forall k' :: k' in s ==> k' == k || Less(k, k')
  }

  lemma {:induction false} LeastExists(s: set<Bytes>)
    requires s != {}
    ensures exists k :: IsLeast(k, s)
    decreases |s|
  {
    var x :| x in s;
    if s == {x} {
      assert IsLeast(x, s);
    } else {
      var rest := s - {x};
      LeastExists(rest);
      var m :| IsLeast(m, rest);
      LessTotal(x, m);
      var k := if Less(x, m) then x else m;
      forall k' | k' in s ensures k' == k || Less(k, k') {
        if k' != k && k' in rest && k == x && k' != m { LessTransitive(x, m, k'); }
      }
      assert IsLeast(k, s);
    }
  }

  lemma LeastUnique(s: set<Bytes>)
    ensures forall a, b :: IsLeast(a, s) && IsLeast(b, s) ==> a == b
  {
    forall a, b | IsLeast(a, s) && IsLeast(b, s) ensures a == b {
      if a != b { LessAsymmetric(a, b); }
    }
  }

  /** The keys of an ordered map, in iteration order. */
  function SortedKeys(s: set<Bytes>): (ks: seq<Bytes>)
    ensures StrictlySorted(ks)
    ensures forall k :: k in ks <==> k in s
    decreases |s|
  {
    if s == {} then []
    else
      LeastExists(s);
      LeastUnique(s);
      var k :| IsLeast(k, s);
      var rest := SortedKeys(s - {k});
      assert forall i :: 0 <= i < |rest| ==> rest[i] in rest;
      [k] + rest
  }

  lemma {:induction false} SortedUnique(xs: seq<Bytes>, ys: seq<Bytes>)
    requires StrictlySorted(xs) && StrictlySorted(ys)
    requires forall k :: k in xs <==> k in ys
    ensures xs == ys
  {
    NonEmptyHasMember(xs);
    NonEmptyHasMember(ys);
    if xs != [] {
      assert xs[0] in ys;
      assert ys[0] in xs;
      HeadIsLeast(xs, ys[0]);
      HeadIsLeast(ys, xs[0]);
      if xs[0] != ys[0] { LessAsymmetric(xs[0], ys[0]); }
      TailMembers(xs);
      TailMembers(ys);
      SortedUnique(xs[1..], ys[1..]);
      assert xs == [xs[0]] + xs[1..] && ys == [ys[0]] + ys[1..];
    }
  }

  lemma NonEmptyHasMember(xs: seq<Bytes>)
    ensures xs != [] ==> exists k :: k in xs
  {
    if xs != [] { assert xs[0] in xs; }
  }

  lemma HeadIsLeast(xs: seq<Bytes>, k: Bytes)
    requires StrictlySorted(xs) && k in xs
    ensures k == xs[0] || Less(xs[0], k)
  {
    var i :| 0 <= i < |xs| && xs[i] == k;
  }

  lemma TailMembers(xs: seq<Bytes>)
    requires StrictlySorted(xs) && xs != []
    ensures StrictlySorted(xs[1..])
    ensures forall k :: k in xs[1..] <==> k in xs && k != xs[0]
  {
    LessIrreflexive(xs[0]);
    forall k | k in xs && k != xs[0] ensures k in xs[1..] {
      var i :| 0 <= i < |xs| && xs[i] == k;
      assert xs[1..][i - 1] == k;
    }
  }

  lemma SortedOne(k: Bytes)
    ensures SortedKeys({k}) == [k]
  {
    hide SortedKeys;
    SortedUnique(SortedKeys({k}), [k]);
  }

  /** The keys that `BTreeMap::range(from..to)` visits. */
  function KeyRange(s: set<Bytes>, from: Bytes, to: Bytes): set<Bytes> {
    set k | k in s && !Less(k, from) && Less(k, to)
  }

  // ---------------------------------------------------------------- UTF-8

  predicate Continuation(b: byte) { 0x80 <= b <= 0xBF }

  /** Well-formed UTF-8, as `String::from_utf8` decides it. */
  predicate ValidUtf8(s: Bytes)
    decreases |s|
  {
    || s == []
    || (s[0] < 0x80 && ValidUtf8(s[1..]))
    || (|s| >= 2 && 0xC2 <= s[0] <= 0xDF && Continuation(s[1]) && ValidUtf8(s[2..]))
    || (|s| >= 3 && Lead3(s[0], s[1]) && Continuation(s[2]) && ValidUtf8(s[3..]))
    || (|s| >= 4 && Lead4(s[0], s[1]) && Continuation(s[2]) && Continuation(s[3]) && ValidUtf8(s[4..]))
  }

  lemma NothingIsValid()
    ensures ValidUtf8([])
  {
  }

  predicate Lead3(a: byte, b: byte) {
    || (a == 0xE0 && 0xA0 <= b <= 0xBF)
    || ((0xE1 <= a <= 0xEC || 0xEE <= a <= 0xEF) && Continuation(b))
    || (a == 0xED && 0x80 <= b <= 0x9F)
  }

  predicate Lead4(a: byte, b: byte) {
    || (a == 0xF0 && 0x90 <= b <= 0xBF)
    || (0xF1 <= a <= 0xF3 && Continuation(b))
    || (a == 0xF4 && 0x80 <= b <= 0x8F)
  }

  // ---------------------------------------------------------------- decimal numerals

  predicate IsDigit(b: byte) { 48 <= b <= 57 }

  predicate AllDigits(s: Bytes) {
    forall i :: 0 <= i < |s| ==> IsDigit(s[i])
  }

  /** `n.to_string()` as bytes. */
  function Decimal(n: nat): (s: Bytes)
    ensures s != [] && AllDigits(s)
  {
    if n < 10 then [48 + n] else Decimal(n / 10) + [48 + n % 10]
  }

  /** The number a digit string denotes. */
  function Numeral(s: Bytes): (n: nat)
    requires AllDigits(s)
  {
    if s == [] then 0 else Numeral(s[..|s| - 1]) * 10 + (s[|s| - 1] - 48)
  }

  /** `str::parse::<usize>` on a 64-bit machine: an optional plus sign, at least one digit, no overflow. */
  function ParseUsize(s: Bytes): Option<nat> {
    var digits := if s != [] && s[0] == 43 then s[1..] else s;
    if digits == [] || !AllDigits(digits) || Numeral(digits) >= U64_LIMIT then None
    else Some(Numeral(digits))
  }

  lemma {:induction false} DecimalRoundTrip(n: nat)
    ensures Numeral(Decimal(n)) == n
  {
    if n >= 10 {
      DecimalRoundTrip(n / 10);
      var s := Decimal(n);
      assert s[..|s| - 1] == Decimal(n / 10);
    }
  }

  /** No leading zero. */
  lemma {:induction false} DecimalLead(n: nat)
    requires n > 0
    ensures Decimal(n)[0] != 48
  {
    if n >= 10 { DecimalLead(n / 10); }
  }

  /** The decimal form of a number is its only digit string without a leading zero. */
  lemma {:induction false} DecimalUnique(s: Bytes)
    requires s != [] && AllDigits(s) && (|s| > 1 ==> s[0] != 48)
    ensures s == Decimal(Numeral(s))
  {
    var n := |s| - 1;
    assert IsDigit(s[n]);
    if n > 0 {
      var front := s[..n];
      assert AllDigits(front) && front[0] == s[0];
      DecimalUnique(front);
      NumeralPositive(front);
      var m := Numeral(front);
      assert Numeral(s) == m * 10 + (s[n] - 48);
      assert s == front + [s[n]];
    }
  }

  /** A digit string that denotes the number, without a leading zero unless it is `0`. */
  predicate Denotes(s: Bytes, n: nat) {
    s != [] && AllDigits(s) && Numeral(s) == n && (|s| > 1 ==> s[0] != 48)
  }

  lemma DecimalExact(s: Bytes, n: nat)
    ensures s == Decimal(n) <==> Denotes(s, n)
  {
    hide Decimal, Numeral;
    DecimalRoundTrip(n);
    if n > 0 { DecimalLead(n); } else { DecimalZero(); }
    if Denotes(s, n) { DecimalUnique(s); }
  }

  lemma DecimalZero()
    ensures Decimal(0) == [48]
  {
  }

  lemma {:induction false} NumeralPositive(s: Bytes)
    requires s != [] && AllDigits(s) && s[0] != 48
    ensures Numeral(s) > 0
  {
    assert IsDigit(s[|s| - 1]);
    if |s| > 1 { NumeralPositive(s[..|s| - 1]); }
  }

  /** Which strings are read as a length, and as which: digits, at most one plus sign before them, below 2^64. */
  lemma ParseUsizeExact(s: Bytes, n: nat)
    ensures ParseUsize(s) == Some(n) <==>
            exists digits: Bytes ::
              && (s == digits || s == [43] + digits)
              && digits != [] && AllDigits(digits) && Numeral(digits) == n < 0x1_0000_0000_0000_0000
  {
    hide Numeral;
    if s != [] && s[0] == 43 {
      assert s == [43] + s[1..];
      assert !AllDigits(s) by { assert !IsDigit(s[0]); }
      forall digits: Bytes | s == [43] + digits ensures digits == s[1..] { assert ([43] + digits)[1..] == digits; }
    }
  }

  lemma NumberLayout()
    ensures Decimal(0) == Ascii("0") && Decimal(7) == Ascii("7") && Decimal(120) == Ascii("120")
    ensures AllDigits(Ascii("120")) && Numeral(Ascii("120")) == 120
  {
    assert Decimal(1) == [49] && Decimal(12) == Decimal(1) + [50] && Decimal(120) == Decimal(12) + [48];
    DecimalRoundTrip(120);
  }

  lemma ParseDecimal(n: nat)
    requires n < U64_LIMIT
    ensures ParseUsize(Decimal(n)) == Some(n)
  {
    DecimalRoundTrip(n);
    assert IsDigit(Decimal(n)[0]);
  }

  // ---------------------------------------------------------------- concatenation

  function Concat(parts: seq<Bytes>): Bytes {
    if parts == [] then [] else parts[0] + Concat(parts[1..])
  }

  lemma {:induction false} ConcatAppend(a: seq<Bytes>, b: seq<Bytes>)
    ensures Concat(a + b) == Concat(a) + Concat(b)
  {
    hide Concat;
    if a == [] {
      ConcatNone();
      assert a + b == b;
    } else {
      ConcatAppend(a[1..], b);
      assert a == [a[0]] + a[1..] && a + b == [a[0]] + (a[1..] + b);
      ConcatFirst(a[0], a[1..]);
      ConcatFirst(a[0], a[1..] + b);
      Associates(a[0], Concat(a[1..]), Concat(b));
    }
  }

  lemma ConcatFirst(first: Bytes, left: seq<Bytes>)
    ensures Concat([first] + left) == first + Concat(left)
  {
    assert ([first] + left)[1..] == left;
  }

  lemma Associates<T>(a: seq<T>, b: seq<T>, c: seq<T>)
    ensures a + (b + c) == a + b + c
  {
  }

  lemma ConcatNone()
    ensures Concat([]) == []
  {
  }

  lemma ConcatOne(part: Bytes)
    ensures Concat([part]) == part
  {
    assert [part][1..] == [];
    assert Concat([part][1..]) == [];
  }

  lemma ConcatPush(parts: seq<Bytes>, part: Bytes)
    ensures Concat(parts + [part]) == Concat(parts) + part
  {
    ConcatAppend(parts, [part]);
    ConcatOne(part);
  }

  /** A strict prefix of a concatenation is some whole parts and a strict prefix of the next. */
  lemma {:induction false} CutConcat(parts: seq<Bytes>, n: nat) returns (j: nat, m: nat)
    requires n < |Concat(parts)|
    ensures j < |parts| && m < |parts[j]|
    ensures Concat(parts)[..n] == Concat(parts[..j]) + parts[j][..m]
  {
    var first := |parts[0]|;
    if n < first {
      j, m := 0, n;
      assert Concat(parts)[..n] == parts[0][..n];
    } else {
      j, m := CutConcat(parts[1..], n - first);
      assert parts[1..][j] == parts[j + 1];
      assert parts[..j + 1][1..] == parts[1..][..j];
      assert Concat(parts)[..n] == parts[0] + Concat(parts[1..])[..n - first];
      j := j + 1;
    }
  }

  lemma {:induction false} ConcatLength(a: seq<Bytes>, b: seq<Bytes>)
    requires |a| == |b| && forall i :: 0 <= i < |a| ==> |a[i]| == |b[i]|
    ensures |Concat(a)| == |Concat(b)|
  {
    if a != [] { ConcatLength(a[1..], b[1..]); }
  }

  /** Where part `i` lies in a concatenation. */
  lemma ConcatAt(parts: seq<Bytes>, i: nat)
    requires i < |parts|
    ensures var start := |Concat(parts[..i])|;
            && |Concat(parts[..i + 1])| == start + |parts[i]| <= |Concat(parts)|
            && Concat(parts)[start..start + |parts[i]|] == parts[i]
  {
    assert parts[..i + 1] == parts[..i] + [parts[i]];
    ConcatPush(parts[..i], parts[i]);
    assert parts == parts[..i + 1] + parts[i + 1..];
    ConcatAppend(parts[..i + 1], parts[i + 1..]);
  }
}
