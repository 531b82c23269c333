/** The MySQL wide-table seeder of e2e/lib/dataTransferFixtures.ts: rows in batches, and the checksum
    the specs compare. Only the integer columns and `code` are modelled. */
module BatchSeeder {
  const QTY_MODULUS := 1000000
  const CODE_MODULUS := 10000000

  datatype Row = Row(id: nat, smallQty: nat, qty: nat, bigQty: nat, code: string)

  // ---------- codes ----------

  function Digit(d: nat): char
    requires d < 10
  {
    '0' + d as char
  }

  /** The last `width` decimal digits of `n`. */
  function Digits(n: nat, width: nat): (s: string)
    ensures |s| == width
  {
    if width == 0 then "" else Digits(n / 10, width - 1) + [Digit(n % 10)]
  }

  function Value(s: string): int {
    if s == "" then 0 else 10 * Value(s[..|s| - 1]) + (s[|s| - 1] as int - '0' as int)
  }

  function Power10(k: nat): nat { if k == 0 then 1 else 10 * Power10(k - 1) }

  lemma {:induction false} DigitsHaveValue(n: nat, width: nat)
    requires n < Power10(width)
    ensures Value(Digits(n, width)) == n
  {
    if width > 0 {
      DigitsHaveValue(n / 10, width - 1);
      var s := Digits(n, width);
      assert s[..|s| - 1] == Digits(n / 10, width - 1);
    }
  }

  function Code(g: nat): (code: string)
    ensures |code| == 8 && code[0] == 'C'
  {
    "C" + Digits(g % CODE_MODULUS, 7)
  }

  function RowOf(g: nat): Row {
    Row(g, g % 32767, g % QTY_MODULUS, g, Code(g))
  }

  /** The columns that wrap around count up one by one, each from 0 to the largest value before its own
      modulus; the key and the big quantity never wrap. */
  lemma ColumnsCountUp(g: nat)
    ensures RowOf(0).smallQty == 0 && RowOf(0).qty == 0
    ensures var row, next := RowOf(g), RowOf(g + 1);
      && row.id == g && row.bigQty == g && row.code == Code(g)
      && next.smallQty == (if row.smallQty == 32766 then 0 else row.smallQty + 1) && row.smallQty <= 32766
      && next.qty == (if row.qty == 999999 then 0 else row.qty + 1) && row.qty <= 999999
  {
    SmallCountsUp(g);
    QtyCountsUp(g);
  }

  lemma SmallCountsUp(g: nat)
    ensures (g + 1) % 32767 == if g % 32767 == 32766 then 0 else g % 32767 + 1
  {
    assert g == (g / 32767) * 32767 + g % 32767;
  }

  lemma QtyCountsUp(g: nat)
    ensures (g + 1) % 1000000 == if g % 1000000 == 999999 then 0 else g % 1000000 + 1
  {
    assert g == (g / 1000000) * 1000000 + g % 1000000;
  }

  /** The codes fill char(8) exactly and tell rows apart within ten million of each other. */
  lemma CodesRepeatEveryTenMillion(g: nat, g': nat)
    ensures Code(g) == Code(g') <==> g % CODE_MODULUS == g' % CODE_MODULUS
  {
    assert Power10(7) == CODE_MODULUS by {
      assert Power10(3) == 1000;
    }
    DigitsHaveValue(g % CODE_MODULUS, 7);
    DigitsHaveValue(g' % CODE_MODULUS, 7);
    assert Code(g)[1..] == Digits(g % CODE_MODULUS, 7) && Code(g')[1..] == Digits(g' % CODE_MODULUS, 7);
  }

  // ---------- batches ----------

  /** The rows from..to, both included. */
  function RowsBetween(from: nat, to: int): seq<Row>
    requires from <= to + 1
  {
    seq(to + 1 - from, i requires 0 <= i < to + 1 - from => RowOf(from + i))
  }

  lemma RowsJoin(from: nat, mid: int, to: int)
    requires from <= mid + 1 && mid <= to
    ensures RowsBetween(from, mid) + RowsBetween(mid + 1, to) == RowsBetween(from, to)
  {
  }

  function Concat(batches: seq<seq<Row>>): seq<Row> {
    if batches == [] then [] else Concat(batches[..|batches| - 1]) + batches[|batches| - 1]
  }

  /** seedMysqlWideTypes: one INSERT per batch. A count below 1 inserts nothing. */
  method SeedMysqlWideTypes(count: int, batchSize: nat := 1000) returns (inserts: seq<seq<Row>>)
    requires batchSize > 0
    ensures Concat(inserts) == RowsBetween(1, if count < 1 then 0 else count)
    ensures forall k :: 0 <= k < |inserts| ==> 1 <= |inserts[k]| <= batchSize
    ensures forall k :: 0 <= k < |inserts| - 1 ==> |inserts[k]| == batchSize
  {
    inserts := [];
    var start := 1;
    while start <= count
      invariant 1 <= start && (count < 1 ==> start == 1)
      invariant Concat(inserts) == RowsBetween(1, if count < 1 then 0 else if start <= count then start - 1 else count)
      invariant forall k :: 0 <= k < |inserts| ==> 1 <= |inserts[k]| <= batchSize
      invariant forall k :: 0 <= k < |inserts| - 1 ==> |inserts[k]| == batchSize
      invariant start <= count && inserts != [] ==> |inserts[|inserts| - 1]| == batchSize
      decreases count - start
    {
      var end := if start + batchSize - 1 < count then start + batchSize - 1 else count;
      var values := seq(end - start + 1, i requires 0 <= i < end - start + 1 => RowOf(start + i));
      RowsJoin(1, start - 1, end);
      assert values == RowsBetween(start, end);
      ghost var before := inserts;
      inserts := inserts + [values];
      assert inserts[..|inserts| - 1] == before;
      start := start + batchSize;
    }
  }

  // ---------- the checksum ----------

  function QtySum(rows: seq<Row>): nat {
    if rows == [] then 0 else QtySum(rows[..|rows| - 1]) + rows[|rows| - 1].qty
  }

  /** expectedQtySum: the running total. */
  method ExpectedQtySum(rowCount: int) returns (sum: nat)
    ensures sum == QtySum(RowsBetween(1, if rowCount < 1 then 0 else rowCount))
  {
    sum := 0;
    var g := 1;
    while g <= rowCount
      invariant 1 <= g && (rowCount < 1 ==> g == 1) && (rowCount >= 1 ==> g <= rowCount + 1)
      invariant sum == QtySum(RowsBetween(1, g - 1))
    {
      var rows := RowsBetween(1, g);
      assert rows[..|rows| - 1] == RowsBetween(1, g - 1);
      sum := sum + g % QTY_MODULUS;
      g := g + 1;
    }
  }

  lemma {:induction false} QtySumOfConcat(a: seq<Row>, b: seq<Row>)
    ensures QtySum(a + b) == QtySum(a) + QtySum(b)
  {
    if b == [] {
      assert a + b == a;
    } else {
      assert (a + b)[..|a + b| - 1] == a + b[..|b| - 1];
      QtySumOfConcat(a, b[..|b| - 1]);
    }
  }

  function BatchSums(batches: seq<seq<Row>>): nat {
    if batches == [] then 0 else BatchSums(batches[..|batches| - 1]) + QtySum(batches[|batches| - 1])
  }

  /** However the rows are cut into batches, the quantities add up to those of all rows together. */
  lemma {:induction false} BatchesKeepTheSum(batches: seq<seq<Row>>)
    ensures BatchSums(batches) == QtySum(Concat(batches))
  {
    if batches != [] {
      BatchesKeepTheSum(batches[..|batches| - 1]);
      QtySumOfConcat(Concat(batches[..|batches| - 1]), batches[|batches| - 1]);
    }
  }

  function Triangle(n: nat): nat { n * (n + 1) / 2 }

  lemma TriangleGrows(n: nat)
    ensures Triangle(n + 1) == Triangle(n) + n + 1
  {
    assert (n + 1) * (n + 2) == n * (n + 1) + 2 * (n + 1);
  }

  /** Every full cycle of the modulus M adds M(M-1)/2, what is left over a triangle. */
  function ClosedForm(count: nat): nat {
    (count / QTY_MODULUS) * Triangle(QTY_MODULUS - 1) + Triangle(count % QTY_MODULUS)
  }

  lemma NextRemainder(count: nat, q: nat, r: nat)
    requires count == q * QTY_MODULUS + r && r < QTY_MODULUS
    ensures count / QTY_MODULUS == q && count % QTY_MODULUS == r
  {
  }

  lemma ClosedFormGrows(count: nat)
    ensures ClosedForm(count + 1) == ClosedForm(count) + (count + 1) % QTY_MODULUS
  {
    var q, r, cycle := count / QTY_MODULUS, count % QTY_MODULUS, Triangle(QTY_MODULUS - 1);
    TriangleGrows(r);
    if r + 1 < QTY_MODULUS {
      NextRemainder(count + 1, q, r + 1);
    } else {
      NextRemainder(count + 1, q + 1, 0);
      assert (q + 1) * cycle == q * cycle + cycle;
    }
  }

  /** The checksum in closed form. */
  lemma {:induction false} ChecksumClosedForm(count: nat)
    ensures QtySum(RowsBetween(1, count)) == ClosedForm(count)
  {
    if count > 0 {
      ChecksumClosedForm(count - 1);
      var rows := RowsBetween(1, count);
      assert rows[..|rows| - 1] == RowsBetween(1, count - 1);
      ClosedFormGrows(count - 1);
    }
  }
}
