/** SSTable file names: `<millis>.sst`, listed in path order, read in age order. */
module FileNames {
  import opened Bytes

  const DOT_SST: Bytes := [46, 115, 115, 116]

  /** The file name `write_sstable` gives a table flushed at `millis`. */
  function SstName(millis: nat): Bytes {
    Decimal(millis) + DOT_SST
  }

  /** The name, exactly: the stamp in decimal, then `.sst`. */
  lemma SstNameExact(millis: nat, b: Bytes)
    ensures b == SstName(millis) <==>
            exists digits :: Denotes(digits, millis) && b == digits + [46, 115, 115, 116]
  {
    hide Decimal, Denotes;
    DecimalExact(Decimal(millis), millis);
    forall digits | Denotes(digits, millis) ensures digits == Decimal(millis) { DecimalExact(digits, millis); }
  }

  /** Different stamps have different names, whatever their lengths. */
  lemma SstNamesDiffer(a: nat, b: nat)
    ensures SstName(a) == SstName(b) <==> a == b
  {
    hide Decimal;
    if SstName(a) == SstName(b) {
      assert Decimal(a) == SstName(a)[..|SstName(a)| - 4] && Decimal(b) == SstName(b)[..|SstName(b)| - 4];
      DecimalRoundTrip(a);
      DecimalRoundTrip(b);
    }
  }

  // ---------------------------------------------------------------- listing a directory

  /** `path.extension() == Some("sst")`: something, then a dot and these letters at the end. */
  predicate HasSstExtension(name: Bytes) {
    |name| > 4 && name[|name| - 4..] == DOT_SST
  }

  lemma ExtensionExact(name: Bytes)
    ensures HasSstExtension(name) <==> exists stem :: stem != [] && name == stem + [46, 115, 115, 116]
  {
    if HasSstExtension(name) {
      assert name == name[..|name| - 4] + [46, 115, 115, 116];
    }
  }

  lemma SstNameListed(millis: nat)
    ensures HasSstExtension(SstName(millis))
  {
    hide Decimal;
  }

  function Listed(files: set<Bytes>): set<Bytes> {
    set n | n in files && HasSstExtension(n)
  }

  /** `get_sstables_asc` over the entries of a directory, in whatever order they come. */
  method GetSstablesAsc(entries: seq<Bytes>) returns (names: seq<Bytes>)
    ensures StrictlySorted(names)
    ensures forall n :: n in names <==> n in entries && exists stem :: stem != [] && n == stem + [46, 115, 115, 116]
  {
    hide StrictlySorted;
    var found: set<Bytes> := {};
    for i := 0 to |entries|
      invariant forall n :: n in found <==> n in entries[..i] && HasSstExtension(n)
    {
      if HasSstExtension(entries[i]) { found := found + {entries[i]}; }
    }
    assert entries[..|entries|] == entries;
    names := SortedKeys(found);
    forall n: Bytes { ExtensionExact(n); }
  }

  function Pow10(n: nat): (p: nat)
    ensures p > 0
  {
    if n == 0 then 1 else 10 * Pow10(n - 1)
  }

  // ---------------------------------------------------------------- order of numerals

  lemma {:induction false} LessAppend(x: Bytes, y: Bytes, s: Bytes, t: Bytes)
    requires |x| == |y|
    ensures Less(x + s, y + t) <==> Less(x, y) || (x == y && Less(s, t))
  {
    if x == [] {
      assert x + s == s && y + t == t;
    } else {
      LessAppend(x[1..], y[1..], s, t);
      assert (x + s)[1..] == x[1..] + s && (y + t)[1..] == y[1..] + t;
      assert x == y <==> x[0] == y[0] && x[1..] == y[1..] by {
        assert x == [x[0]] + x[1..] && y == [y[0]] + y[1..];
      }
    }
  }

  /** Digit strings of one length are ordered as the numbers they denote. */
  lemma {:induction false} LessNumeral(x: Bytes, y: Bytes)
    requires |x| == |y| && AllDigits(x) && AllDigits(y)
    ensures Less(x, y) <==> Numeral(x) < Numeral(y)
    ensures x == y <==> Numeral(x) == Numeral(y)
  {
    if x != [] {
      var n := |x| - 1;
      LessNumeral(x[..n], y[..n]);
      LessAppend(x[..n], y[..n], [x[n]], [y[n]]);
      assert x == x[..n] + [x[n]] && y == y[..n] + [y[n]];
    }
  }

  lemma {:induction false} NumeralPrefix(y: Bytes, m: nat)
    requires AllDigits(y) && m <= |y|
    ensures Numeral(y[..m]) == Numeral(y) / Pow10(|y| - m)
    decreases |y|
  {
    if m == |y| {
      assert y[..m] == y;
    } else {
      var n := |y| - 1;
      NumeralPrefix(y[..n], m);
      assert y[..n][..m] == y[..m];
      DivStep(Numeral(y[..n]), y[n] - 48, Pow10(n - m));
    }
  }

  lemma DivStep(q: nat, d: nat, p: nat)
    requires d < 10 && p > 0
    ensures (q * 10 + d) / (10 * p) == q / p
  {
    var c, r := q / p, q % p;
    assert q == c * p + r;
    assert q * 10 + d == c * (10 * p) + (10 * r + d) by { assert (c * p) * 10 == c * (10 * p); }
    assert 0 <= 10 * r + d < 10 * p;
    DivUnique(q * 10 + d, 10 * p, c, 10 * r + d);
  }

  lemma DivUnique(x: nat, m: nat, c: nat, r: nat)
    requires m > 0 && r < m && x == c * m + r
    ensures x / m == c
  {
    var k := x / m;
    assert x == k * m + x % m;
    assert (k - c) * m == r - x % m;
    if k != c { NonzeroMultiple(k - c, m); }
  }

  lemma NonzeroMultiple(d: int, m: nat)
    requires d != 0
    ensures d * m >= m || d * m + m <= 0
  {
    if d > 0 {
      assert (d - 1) * m >= 0;
    } else {
      assert (-d - 1) * m >= 0;
    }
  }

  lemma {:induction false} DecimalLengthMonotone(a: nat, b: nat)
    requires a <= b
    ensures |Decimal(a)| <= |Decimal(b)|
  {
    if a >= 10 { DecimalLengthMonotone(a / 10, b / 10); }
  }

  // ---------------------------------------------------------------- main results

  /** Exactly when a younger table's name sorts after an older one's: the older stamp is at most
      the leading digits of the younger one. */
  lemma NameOrderIffLeadingDigits(a: nat, b: nat)
    requires a < b
    ensures |Decimal(a)| <= |Decimal(b)|
    ensures Less(SstName(a), SstName(b)) <==> a <= b / Pow10(|Decimal(b)| - |Decimal(a)|)
  {
    hide Decimal, Numeral;
    DecimalLengthMonotone(a, b);
    var x, y := Decimal(a), Decimal(b);
    var m := |x|;
    var y1, y2 := y[..m], y[m..];
    DecimalRoundTrip(a);
    DecimalRoundTrip(b);
    NumeralPrefix(y, m);
    LessNumeral(x, y1);
    LessAppend(x, y1, DOT_SST, y2 + DOT_SST);
    assert SstName(b) == y1 + (y2 + DOT_SST);
    if y2 == [] {
      assert y1 == y;
    } else {
      assert IsDigit(y[m]) && (y2 + DOT_SST)[0] == y[m];
      assert Less(DOT_SST, y2 + DOT_SST);
    }
  }

  /** Stamps with the same number of digits (13 until the year 2286): name order is age order. */
  lemma NameOrderIsAgeOrder(a: nat, b: nat)
    requires |Decimal(a)| == |Decimal(b)|
    ensures Less(SstName(a), SstName(b)) <==> a < b
    ensures SstName(a) == SstName(b) <==> a == b
  {
    if a < b {
      NameOrderIffLeadingDigits(a, b);
      LessAsymmetric(SstName(a), SstName(b));
    } else if b < a {
      NameOrderIffLeadingDigits(b, a);
      LessAsymmetric(SstName(b), SstName(a));
    } else {
      LessIrreflexive(SstName(a));
    }
  }

  /** Without the digit condition the order breaks: 999 is older than 1000 but sorts after it. */
  lemma NameOrderBreaksAtDigitChange()
    ensures Less(SstName(1000), SstName(999))
  {
    assert Decimal(1000) == [49, 48, 48, 48] by { assert Decimal(100) == [49, 48, 48]; }
    assert Decimal(999) == [57, 57, 57];
  }

  function Reverse<T>(s: seq<T>): (r: seq<T>)
    ensures |r| == |s|
    ensures forall i :: 0 <= i < |s| ==> r[i] == s[|s| - 1 - i]
    ensures forall x :: x in r ==> x in s
  {
    seq(|s|, i requires 0 <= i < |s| => s[|s| - 1 - i])
  }

  /** The list `scan` walks (ascending) and the list `get` walks (descending) hold the tables of one
      file set in exactly opposite age order. */
  lemma ListsAreReversedInAge(stamps: set<nat>, digits: nat)
    requires forall t :: t in stamps ==> |Decimal(t)| == digits
    ensures var names := set t | t in stamps :: SstName(t);
            var asc, desc := SortedKeys(names), Reverse(SortedKeys(names));
            && (forall i :: 0 <= i < |asc| ==> exists t :: t in stamps && asc[i] == SstName(t))
            && (forall i, j, t, u | 0 <= i < j < |asc| && t in stamps && u in stamps ::
                  asc[i] == SstName(t) && asc[j] == SstName(u) ==> t < u)
            && (forall i, j, t, u | 0 <= i < j < |desc| && t in stamps && u in stamps ::
                  desc[i] == SstName(t) && desc[j] == SstName(u) ==> t > u)
  {
    var names := set t | t in stamps :: SstName(t);
    var asc := SortedKeys(names);
    forall i | 0 <= i < |asc| ensures exists t :: t in stamps && asc[i] == SstName(t) {
      assert asc[i] in names;
    }
    forall i, j, t, u | 0 <= i < j < |asc| && t in stamps && u in stamps
                        && asc[i] == SstName(t) && asc[j] == SstName(u)
      ensures t < u
    {
      NameOrderIsAgeOrder(t, u);
    }
  }
}
