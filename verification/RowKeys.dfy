/** Length-prefixed row keys (src/lib/adt/tableCompare.ts, `rowKey`). */
module RowKeys {

  /** A row as the SQL layer returns it. */
  type TableRow = map<string, string>

  /** `String(row[field] ?? '')`. */
  function Value(row: TableRow, field: string): string {
    if field in row then row[field] else ""
  }

  function Digit(d: nat): char
    requires d < 10
  {
    '0' + d as char
  }

  /** The decimal numeral that `${n}` prints. */
  function Decimal(n: nat): string {
    if n < 10 then [Digit(n)] else Decimal(n / 10) + [Digit(n % 10)]
  }

  function Prefixed(raw: string): string {
    Decimal(|raw|) + ":" + raw
  }

  function RowKey(row: TableRow, keyFields: seq<string>): string {
    if |keyFields| == 0 then "" else Prefixed(Value(row, keyFields[0])) + RowKey(row, keyFields[1..])
  }

  /** The text a row holds in a field: blank if it has no such field. */
  ghost predicate Holds(row: TableRow, field: string, text: string) {
    text == if field in row then row[field] else ""
  }

  /** The rows agree in every key field. */
  ghost predicate SameKey(a: TableRow, b: TableRow, keyFields: seq<string>) {
    forall f, text :: f in keyFields && Holds(a, f, text) ==> Holds(b, f, text)
  }

  lemma SameKeyValues(a: TableRow, b: TableRow, keyFields: seq<string>)
    ensures SameKey(a, b, keyFields) <==> forall f :: f in keyFields ==> Value(a, f) == Value(b, f)
  {
    forall f | SameKey(a, b, keyFields) && f in keyFields ensures Value(a, f) == Value(b, f) {
      assert Holds(a, f, Value(a, f));
    }
  }

  /** Reading a numeral back. */
  function Read(s: string): int {
    if |s| == 0 then 0 else 10 * Read(s[..|s| - 1]) + (s[|s| - 1] as int - '0' as int)
  }

  lemma {:induction false} DecimalReads(n: nat)
    ensures Read(Decimal(n)) == n
    ensures forall c :: c in Decimal(n) ==> c != ':'
  {
    if n < 10 {
      assert Decimal(n)[..0] == "";
    } else {
      DecimalReads(n / 10);
      assert Decimal(n)[..|Decimal(n)| - 1] == Decimal(n / 10);
    }
  }

  function ColonAt(s: string): nat {
    if |s| == 0 || s[0] == ':' then 0 else 1 + ColonAt(s[1..])
  }

  lemma {:induction false} ColonAfter(a: string, s: string)
    requires forall c :: c in a ==> c != ':'
    ensures ColonAt(a + ":" + s) == |a|
  {
    if |a| != 0 {
      assert a[0] in a && forall c :: c in a[1..] ==> c in a;
      ColonAfter(a[1..], s);
      assert (a + ":" + s)[1..] == a[1..] + ":" + s;
    }
  }

  /** The first colon separates unambiguously. */
  lemma SplitAtColon(a: string, s: string, b: string, t: string)
    requires (forall c :: c in a ==> c != ':') && (forall c :: c in b ==> c != ':')
    requires a + ":" + s == b + ":" + t
    ensures a == b && s == t
  {
    ColonAfter(a, s);
    ColonAfter(b, t);
    var whole := a + ":" + s;
    assert a == whole[..|a|] == b;
    assert s == whole[|a| + 1..] == t;
  }

  /** A length-prefixed value can be taken off the front in one way only, whatever digits and colons it contains. */
  lemma PrefixedUnique(x: string, s: string, y: string, t: string)
    requires Prefixed(x) + s == Prefixed(y) + t
    ensures x == y && s == t
  {
    DecimalReads(|x|);
    DecimalReads(|y|);
    assert Prefixed(x) + s == Decimal(|x|) + ":" + (x + s);
    assert Prefixed(y) + t == Decimal(|y|) + ":" + (y + t);
    SplitAtColon(Decimal(|x|), x + s, Decimal(|y|), y + t);
    assert |x| == |y|;
    assert x == (x + s)[..|x|] == y;
    assert s == (x + s)[|x|..] == t;
  }

  /** Equal keys mean equal key values, and conversely. */
  lemma {:induction false} RowKeyInjective(a: TableRow, b: TableRow, keyFields: seq<string>)
    ensures RowKey(a, keyFields) == RowKey(b, keyFields) <==> SameKey(a, b, keyFields)
  {
    if |keyFields| != 0 {
      var first, rest := keyFields[0], keyFields[1..];
      RowKeyInjective(a, b, rest);
      SameKeyValues(a, b, keyFields);
      SameKeyValues(a, b, rest);
      assert keyFields == [first] + rest;
      if RowKey(a, keyFields) == RowKey(b, keyFields) {
        PrefixedUnique(Value(a, first), RowKey(a, rest), Value(b, first), RowKey(b, rest));
      }
      if SameKey(a, b, keyFields) {
        assert first in keyFields && forall f :: f in rest ==> f in keyFields;
      }
    }
  }
}
