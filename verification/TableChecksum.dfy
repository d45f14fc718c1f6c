/** The order-blind table checksum (scripts/migrate-sqlite-to-postgres.ts, TableChecksum):
    hashes added modulo 2^256, so that multiplicity counts and order does not. */
module TableChecksum {
  import opened CodeUnits
  import opened Radix

  const MODULUS: nat := Power(2, 256)

  /** The hash of a serialized row, as a number. */
  type Hash = Text -> nat

  lemma ModulusPositive()
    ensures MODULUS > 0
  {
    PowerPositive(2, 256);
  }

  /** The running sum after `rows`, in the order they were added. */
  function Sum(hash: Hash, rows: seq<Text>): nat {
    if rows == [] then 0
    else
      ModulusPositive();
      (Sum(hash, rows[..|rows| - 1]) + hash(rows[|rows| - 1])) % MODULUS
  }

  // ----- The digest: 64 hexadecimal digits -----

  function HexChar(d: nat): char
    requires d < 16
  {
    if d < 10 then '0' + d as char else 'a' + (d - 10) as char
  }

  function HexValue(c: char): nat {
    if '0' <= c <= '9' then (c - '0') as nat
    else if 'a' <= c <= 'f' then (c - 'a') as nat + 10
    else 0
  }

  function HexText(ds: seq<nat>): (s: string)
    requires AreDigits(16, ds)
    ensures |s| == |ds|
  {
    if ds == [] then [] else HexText(ds[..|ds| - 1]) + [HexChar(ds[|ds| - 1])]
  }

  /** The number a hexadecimal text spells. */
  function ParseHex(s: string): nat {
    if s == [] then 0 else ParseHex(s[..|s| - 1]) * 16 + HexValue(s[|s| - 1])
  }

  function Zeros(n: nat): (s: string)
    ensures |s| == n
  {
    if n == 0 then "" else Zeros(n - 1) + "0"
  }

  function PadStart(s: string, width: nat): string {
    if |s| < width then Zeros(width - |s|) + s else s
  }

  function DigestOf(sum: nat): string {
    DigitsRoundTrip(16, sum);
    PadStart(HexText(DigitsOf(16, sum)), 64)
  }

  class TableChecksum {
    const sha256: Hash
    var count: nat
    var sum: nat

    constructor (sha256: Hash)
      ensures this.sha256 == sha256 && IsOver([])
    {
      this.sha256 := sha256;
      count, sum := 0, 0;
    }

    /** The state after adding exactly `rows`. */
    ghost predicate IsOver(rows: seq<Text>)
      reads this
    {
      count == |rows| && sum == Sum(sha256, rows)
    }

    method Add(serialized: Text, ghost rows: seq<Text>)
      requires IsOver(rows)
      modifies this
      ensures IsOver(rows + [serialized])
    {
      ModulusPositive();
      assert (rows + [serialized])[..|rows|] == rows;
      sum := (sum + sha256(serialized)) % MODULUS;
      count := count + 1;
    }

    /** The 64 hexadecimal digits of the sum. */
    method Digest(ghost rows: seq<Text>) returns (digest: string)
      requires IsOver(rows)
      ensures |digest| == 64 && (forall i | 0 <= i < 64 :: IsHexChar(digest[i]))
      ensures ParseHex(digest) == Sum(sha256, rows) && digest == DigestOf(Sum(sha256, rows))
    {
      SumInRange(sha256, rows);
      DigestDecodes(sum);
      digest := DigestOf(sum);
    }
  }

  // ----- The sum as an unordered total -----

  function Total(hash: Hash, rows: seq<Text>): nat {
    if rows == [] then 0 else Total(hash, rows[..|rows| - 1]) + hash(rows[|rows| - 1])
  }

  lemma ModUnique(x: nat, q: nat, r: nat, m: nat)
    requires r < m && x == q * m + r
    ensures x % m == r
  {
    assert x == x / m * m + x % m;
    LastDigit(m, q, x / m, r, x % m);
  }

  lemma ModAdd(a: nat, b: nat, m: nat)
    requires m > 0
    ensures (a % m + b) % m == (a + b) % m
  {
    Quotients(a / m, a % m, b, (a % m + b) / m, (a % m + b) % m, m);
    ModUnique(a + b, a / m + (a % m + b) / m, (a % m + b) % m, m);
  }

  lemma Quotients(q: nat, r: nat, b: nat, k: nat, s: nat, m: nat)
    requires r + b == k * m + s
    ensures q * m + r + b == (q + k) * m + s
  {
  }

  lemma {:induction false} SumIsTotal(hash: Hash, rows: seq<Text>)
    ensures MODULUS > 0 && Sum(hash, rows) == Total(hash, rows) % MODULUS
  {
    ModulusPositive();
    if rows == [] {
      ModUnique(0, 0, 0, MODULUS);
    } else {
      SumIsTotal(hash, rows[..|rows| - 1]);
      ModAdd(Total(hash, rows[..|rows| - 1]), hash(rows[|rows| - 1]), MODULUS);
    }
  }

  lemma {:induction false} TotalConcat(hash: Hash, a: seq<Text>, b: seq<Text>)
    ensures Total(hash, a + b) == Total(hash, a) + Total(hash, b)
  {
    if b == [] {
      assert a + b == a;
    } else {
      TotalConcat(hash, a, b[..|b| - 1]);
      assert (a + b)[..|a + b| - 1] == a + b[..|b| - 1];
    }
  }

  /** Taking one row out, wherever it stands. */
  lemma TakenOut(hash: Hash, rows: seq<Text>, i: nat) returns (rest: seq<Text>)
    requires i < |rows|
    ensures |rest| < |rows| && multiset(rest) == multiset(rows) - multiset{rows[i]}
    ensures Total(hash, rows) == Total(hash, rest) + hash(rows[i])
  {
    rest := rows[..i] + rows[i + 1..];
    var before, here, after := rows[..i], [rows[i]], rows[i + 1..];
    assert rows == before + (here + after);
    assert multiset(rows) == multiset(before) + (multiset(here) + multiset(after));
    TotalConcat(hash, before, here + after);
    TotalConcat(hash, here, after);
    TotalConcat(hash, before, after);
    assert here[..0] == [];
  }

  lemma {:induction false} TotalPermuted(hash: Hash, a: seq<Text>, b: seq<Text>)
    requires multiset(a) == multiset(b)
    ensures Total(hash, a) == Total(hash, b)
    decreases |a|
  {
    if a == [] {
      assert |multiset(b)| == 0;
    } else {
      assert a[0] in multiset(b);
      var i :| 0 <= i < |b| && b[i] == a[0];
      var a' := TakenOut(hash, a, 0);
      var b' := TakenOut(hash, b, i);
      TotalPermuted(hash, a', b');
    }
  }

  /** Reordering rows never changes the sum. */
  lemma SumPermuted(hash: Hash, a: seq<Text>, b: seq<Text>)
    requires multiset(a) == multiset(b)
    ensures Sum(hash, a) == Sum(hash, b)
  {
    TotalPermuted(hash, a, b);
    SumIsTotal(hash, a);
    SumIsTotal(hash, b);
  }

  /** The sum of a concatenation is the sum of the sums, modulo 2^256. */
  lemma SumConcat(hash: Hash, a: seq<Text>, b: seq<Text>)
    ensures MODULUS > 0 && Sum(hash, a + b) == (Sum(hash, a) + Sum(hash, b)) % MODULUS
  {
    SumIsTotal(hash, a);
    SumIsTotal(hash, b);
    SumIsTotal(hash, a + b);
    TotalConcat(hash, a, b);
    ModAdd(Total(hash, a), Sum(hash, b), MODULUS);
    ModAdd(Total(hash, b), Total(hash, a), MODULUS);
  }

  function Copies(row: Text, n: nat): seq<Text> {
    if n == 0 then [] else Copies(row, n - 1) + [row]
  }

  /** Duplicates count: n copies of a row weigh n times its hash. */
  lemma {:induction false} TotalCopies(hash: Hash, row: Text, n: nat)
    ensures Total(hash, Copies(row, n)) == n * hash(row)
  {
    hide Total, Copies;
    CopiesStep(hash, row, n);
    if n > 0 {
      TotalCopies(hash, row, n - 1);
      OneMore(n - 1, hash(row));
    }
  }

  lemma CopiesStep(hash: Hash, row: Text, n: nat)
    ensures Total(hash, Copies(row, 0)) == 0
    ensures n > 0 ==> Total(hash, Copies(row, n)) == Total(hash, Copies(row, n - 1)) + hash(row)
  {
    if n > 0 {
      TotalSnoc(hash, Copies(row, n - 1), row);
    }
  }

  lemma TotalSnoc(hash: Hash, rows: seq<Text>, row: Text)
    ensures Total(hash, rows + [row]) == Total(hash, rows) + hash(row)
  {
    assert (rows + [row])[..|rows|] == rows;
  }

  lemma OneMore(n: nat, h: nat)
    ensures (n + 1) * h == n * h + h
  {
  }

  lemma SumCopies(hash: Hash, row: Text, n: nat)
    ensures MODULUS > 0 && Sum(hash, Copies(row, n)) == n * hash(row) % MODULUS
  {
    SumIsTotal(hash, Copies(row, n));
    TotalCopies(hash, row, n);
  }

  // ----- The digest decodes back to the sum -----

  lemma MulAssociates(a: nat, b: nat, c: nat)
    ensures a * (b * c) == a * b * c
  {
  }

  lemma {:induction false} PowerSplit(base: nat, j: nat, k: nat)
    ensures Power(base, j + k) == Power(base, j) * Power(base, k)
  {
    if j > 0 {
      PowerSplit(base, j - 1, k);
      MulAssociates(base, Power(base, j - 1), Power(base, k));
    }
  }

  lemma {:induction false} PowerOfSixteen(k: nat)
    ensures Power(16, k) == Power(2, 4 * k)
  {
    if k > 0 {
      PowerOfSixteen(k - 1);
      PowerSplit(2, 4, 4 * (k - 1));
      assert Power(2, 4) == 2 * Power(2, 3) == 4 * Power(2, 2) == 8 * Power(2, 1) == 16 * Power(2, 0);
    }
  }

  lemma ModulusIsHex()
    ensures MODULUS == Power(16, 64)
  {
    PowerOfSixteen(64);
  }

  lemma {:induction false} ParseHexText(ds: seq<nat>)
    requires AreDigits(16, ds)
    ensures ParseHex(HexText(ds)) == ValueOf(16, ds)
  {
    if ds != [] {
      ParseHexText(ds[..|ds| - 1]);
      assert HexText(ds)[..|ds| - 1] == HexText(ds[..|ds| - 1]);
    }
  }

  lemma {:induction false} ParsePadded(n: nat, s: string)
    ensures ParseHex(Zeros(n) + s) == ParseHex(s)
    decreases n + |s|
  {
    if s != [] {
      ParsePadded(n, s[..|s| - 1]);
      assert (Zeros(n) + s)[..n + |s| - 1] == Zeros(n) + s[..|s| - 1];
    } else if n > 0 {
      ParsePadded(n - 1, []);
      assert Zeros(n) + s == Zeros(n) && Zeros(n - 1) + [] == Zeros(n - 1);
      assert Zeros(n)[..n - 1] == Zeros(n - 1);
    }
  }

  lemma HexLength(n: nat)
    requires n < MODULUS
    ensures |DigitsOf(16, n)| <= 64
  {
    DigitsRoundTrip(16, n);
    ModulusIsHex();
    var ds := DigitsOf(16, n);
    if |ds| > 64 && n > 0 {
      LeadingDigit(16, ds);
      PowerMonotone(16, 64, |ds| - 1);
    }
  }

  predicate IsHexChar(c: char) {
    '0' <= c <= '9' || 'a' <= c <= 'f'
  }

  lemma {:induction false} HexTextChars(ds: seq<nat>)
    requires AreDigits(16, ds)
    ensures forall i | 0 <= i < |ds| :: IsHexChar(HexText(ds)[i])
  {
    if ds != [] {
      HexTextChars(ds[..|ds| - 1]);
    }
  }

  lemma {:induction false} ZeroChars(n: nat)
    ensures forall i | 0 <= i < n :: Zeros(n)[i] == '0'
  {
    if n > 0 {
      ZeroChars(n - 1);
    }
  }

  /** A digest is always 64 hexadecimal digits, and they spell the sum. */
  lemma DigestDecodes(sum: nat)
    requires sum < MODULUS
    ensures |DigestOf(sum)| == 64 && ParseHex(DigestOf(sum)) == sum
    ensures forall i | 0 <= i < 64 :: IsHexChar(DigestOf(sum)[i])
  {
    DigitsRoundTrip(16, sum);
    HexLength(sum);
    var ds := DigitsOf(16, sum);
    ParseHexText(ds);
    ParsePadded(64 - |ds|, HexText(ds));
    HexTextChars(ds);
    ZeroChars(64 - |ds|);
  }

  // ----- Verification of a copied table -----

  /** The comparison of the report: row counts and digests agree. */
  predicate Verified(hash: Hash, source: seq<Text>, target: seq<Text>) {
    |source| == |target| && DigestOf(Sum(hash, source)) == DigestOf(Sum(hash, target))
  }

  lemma SumInRange(hash: Hash, rows: seq<Text>)
    ensures Sum(hash, rows) < MODULUS
  {
    SumIsTotal(hash, rows);
  }

  /** Verification passes exactly when the counts agree and the totals agree modulo 2^256. */
  lemma VerifiedIff(hash: Hash, source: seq<Text>, target: seq<Text>)
    ensures MODULUS > 0
    ensures Verified(hash, source, target) <==>
            |source| == |target| && Total(hash, source) % MODULUS == Total(hash, target) % MODULUS
  {
    SumIsTotal(hash, source);
    SumIsTotal(hash, target);
    SumInRange(hash, source);
    SumInRange(hash, target);
    DigestDecodes(Sum(hash, source));
    DigestDecodes(Sum(hash, target));
  }

  /** A table holding the source's rows verifies, whatever order they are fetched in. */
  lemma FullCopyVerifies(hash: Hash, source: seq<Text>, fetched: seq<Text>)
    requires multiset(fetched) == multiset(source)
    ensures Verified(hash, source, fetched)
  {
    SumPermuted(hash, source, fetched);
    assert |multiset(fetched)| == |fetched| && |multiset(source)| == |source|;
  }

  lemma {:induction false} TotalUpdate(hash: Hash, rows: seq<Text>, i: nat, row: Text)
    requires i < |rows|
    ensures Total(hash, rows[i := row]) == Total(hash, rows) - hash(rows[i]) + hash(row)
  {
    var n := |rows| - 1;
    if i == n {
      assert rows[i := row][..n] == rows[..n];
    } else {
      assert rows[i := row][..n] == rows[..n][i := row];
      TotalUpdate(hash, rows[..n], i, row);
    }
  }

  lemma ModCancels(a: nat, b: nat, x: nat, y: nat, m: nat)
    requires m > 0 && a + y == b + x && a % m == b % m
    ensures x % m == y % m
  {
    var p, q := a / m, b / m;
    assert a == p * m + a % m && b == q * m + b % m;
    if x >= y {
      ShiftMod(y, p - q, x, m);
    } else {
      ShiftMod(x, q - p, y, m);
    }
  }

  lemma ShiftMod(x: nat, k: int, y: nat, m: nat)
    requires m > 0 && y == x + k * m && k >= 0
    ensures x % m == y % m
  {
    var c, r := x / m, x % m;
    assert x == c * m + r;
    assert (c + k) * m == c * m + k * m;
    ModUnique(y, c + k, r, m);
  }

  lemma TotalsDiffer(hash: Hash, source: seq<Text>, i: nat, row: Text, fetched: seq<Text>, m: nat)
    requires i < |source| && m > 0 && multiset(fetched) == multiset(source[i := row])
    ensures Total(hash, source) % m == Total(hash, fetched) % m <==> hash(source[i]) % m == hash(row) % m
  {
    TotalPermuted(hash, fetched, source[i := row]);
    TotalUpdate(hash, source, i, row);
    hide Total;
    if Total(hash, source) % m == Total(hash, fetched) % m {
      ModCancels(Total(hash, source), Total(hash, fetched), hash(source[i]), hash(row), m);
    }
    if hash(source[i]) % m == hash(row) % m {
      ModCancels(hash(source[i]), hash(row), Total(hash, source), Total(hash, fetched), m);
    }
  }

  /** Two texts weigh the same in every sum. */
  predicate WeighSame(hash: Hash, a: Text, b: Text) {
    ModulusPositive();
    hash(a) % MODULUS == hash(b) % MODULUS
  }

  /** One row replaced by another is noticed, in any fetch order, exactly when the hash tells the
      two apart. */
  lemma ChangedRowNoticedIff(hash: Hash, source: seq<Text>, i: nat, row: Text, fetched: seq<Text>)
    requires i < |source| && multiset(fetched) == multiset(source[i := row])
    ensures Verified(hash, source, fetched) <==> WeighSame(hash, source[i], row)
  {
    ModulusPositive();
    hide Total, Verified;
    VerifiedIff(hash, source, fetched);
    assert |multiset(fetched)| == |multiset(source[i := row])|;
    TotalsDiffer(hash, source, i, row, fetched, MODULUS);
  }

  /** The checksum does not take these two lists for the same: equally many rows with equal totals
      are the same rows. */
  ghost predicate Separates(hash: Hash, a: seq<Text>, b: seq<Text>) {
    ModulusPositive();
    |a| == |b| && Total(hash, a) % MODULUS == Total(hash, b) % MODULUS ==> multiset(a) == multiset(b)
  }

  /** Then verification succeeds exactly for the same rows; it always does for them. */
  lemma SeparatedVerifyIff(hash: Hash, source: seq<Text>, fetched: seq<Text>)
    ensures multiset(source) == multiset(fetched) ==> Verified(hash, source, fetched)
    ensures Separates(hash, source, fetched) ==>
              (Verified(hash, source, fetched) <==> multiset(source) == multiset(fetched))
  {
    hide Total, Verified;
    VerifiedIff(hash, source, fetched);
    if multiset(source) == multiset(fetched) {
      FullCopyVerifies(hash, source, fetched);
    }
  }

  /** The verification loop over one table: rows arrive in fetches of up to `batchSize`. */
  method VerifyTable(sha256: Hash, batchSize: nat, source: seq<Text>, fetched: seq<Text>)
    returns (verified: bool)
    requires batchSize > 0
    ensures verified == Verified(sha256, source, fetched)
  {
    hide DigestOf, ParseHex, Sum;
    var expected := new TableChecksum(sha256);
    for i := 0 to |source|
      invariant expected.sha256 == sha256 && expected.IsOver(source[..i])
    {
      expected.Add(source[i], source[..i]);
      assert source[..i] + [source[i]] == source[..i + 1];
    }
    assert source[..|source|] == source;
    var wanted := expected.Digest(source);
    var rows := expected.count;
    var checksum := new TableChecksum(sha256);
    var from := 0;
    while from < |fetched|
      invariant from <= |fetched| && checksum.sha256 == sha256 && checksum.IsOver(fetched[..from])
    {
      var to := if from + batchSize < |fetched| then from + batchSize else |fetched|;
      for i := from to to
        invariant checksum.sha256 == sha256 && checksum.IsOver(fetched[..i])
      {
        checksum.Add(fetched[i], fetched[..i]);
        assert fetched[..i] + [fetched[i]] == fetched[..i + 1];
      }
      from := to;
    }
    assert fetched[..|fetched|] == fetched;
    var found := checksum.Digest(fetched);
    verified := rows == checksum.count && wanted == found;
  }
}
