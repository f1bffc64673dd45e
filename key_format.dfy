/** The primary keys the flattening makes up for nested tables:
    `fmt.Sprintf("%03d-%s|%s", i, pk, k)` for array items and
    `fmt.Sprintf("%s|%s", pk, k)` for an object member. */
module KeyFormat {
  import opened KeyOrder

  function Digit(n: nat): (c: char)
    requires n < 10
    ensures '0' <= c <= '9'
  {
    (48 + n) as char
  }

  predicate IsDigits(s: string)
  {
    forall i :: 0 <= i < |s| ==> '0' <= s[i] <= '9'
  }

  /** `%d` of a natural number. */
  function Decimal(n: nat): (r: string)
    ensures |r| >= 1 && IsDigits(r)
    ensures |r| == 1 <==> n < 10
  {
    if n < 10 then [Digit(n)] else Decimal(n / 10) + [Digit(n % 10)]
  }

  /** `%03d`: at least three digits, padded with leading zeros. */
  function Pad3(n: nat): (r: string)
    ensures IsDigits(r)
  {
    if n < 10 then "00" + Decimal(n)
    else if n < 100 then "0" + Decimal(n)
    else Decimal(n)
  }

  /** Key of the row made from item `i` of array field `field` of row `pk`. */
  function IndexKey(i: nat, pk: string, field: string): string
  {
    Pad3(i) + "-" + pk + "|" + field
  }

  /** Key of the row made from object field `field` of row `pk`. */
  function MemberKey(pk: string, field: string): string
  {
    pk + "|" + field
  }

  lemma {:induction false} DecimalLength(n: nat)
    ensures n < 1000 <==> |Decimal(n)| <= 3
  {
    if n >= 10 {
      DecimalLength(n / 10);
    }
  }

  lemma {:induction false} DecimalInjective(i: nat, j: nat)
    requires Decimal(i) == Decimal(j)
    ensures i == j
  {
    if i >= 10 && j >= 10 {
      var a, b := Decimal(i), Decimal(j);
      assert a[..|a| - 1] == Decimal(i / 10) && b[..|b| - 1] == Decimal(j / 10);
      DecimalInjective(i / 10, j / 10);
      assert Digit(i % 10) == a[|a| - 1] == b[|b| - 1] == Digit(j % 10);
    } else if i < 10 && j < 10 {
      assert Digit(i) == Decimal(i)[0];
    }
  }

  /** Below 1000, `%03d` is exactly three digits, most significant first. */
  lemma Pad3Digits(n: nat)
    requires n < 1000
    ensures Pad3(n) == [Digit(n / 100), Digit(n / 10 % 10), Digit(n % 10)]
  {
    if n >= 100 {
      assert Decimal(n / 10) == Decimal(n / 10 / 10) + [Digit(n / 10 % 10)];
      assert n / 10 / 10 == n / 100;
    } else if n >= 10 {
      assert Decimal(n / 10) == [Digit(n / 10)];
      assert n / 10 == n / 10 % 10 && n / 100 == 0;
    }
  }

  lemma Pad3Injective(i: nat, j: nat)
    requires Pad3(i) == Pad3(j)
    ensures i == j
  {
    DecimalLength(i);
    DecimalLength(j);
    if i < 1000 && j < 1000 {
      Pad3Digits(i);
      Pad3Digits(j);
      ThreeDigitsInjective(i, j);
    } else if i >= 1000 && j >= 1000 {
      DecimalInjective(i, j);
    } else {
      Pad3Digits(if i < 1000 then i else j);
    }
  }

  lemma ThreeDigitsInjective(i: nat, j: nat)
    requires i < 1000 && j < 1000
    requires [Digit(i / 100), Digit(i / 10 % 10), Digit(i % 10)] == [Digit(j / 100), Digit(j / 10 % 10), Digit(j % 10)]
    ensures i == j
  {
    var a := [Digit(i / 100), Digit(i / 10 % 10), Digit(i % 10)];
    var b := [Digit(j / 100), Digit(j / 10 % 10), Digit(j % 10)];
    assert a[0] == b[0] && a[1] == b[1] && a[2] == b[2];
    assert i / 100 == j / 100 && i / 10 % 10 == j / 10 % 10 && i % 10 == j % 10;
    ThreeDigits(i);
    ThreeDigits(j);
  }

  lemma ThreeDigits(n: nat)
    ensures n / 10 == 10 * (n / 100) + n / 10 % 10
    ensures n == 10 * (n / 10) + n % 10
  {
  }

  /** The first '-' of an index key is the one right after the digits. */
  lemma DashAfterDigits(i: nat, pk: string, field: string)
    ensures |IndexKey(i, pk, field)| > |Pad3(i)|
    ensures IndexKey(i, pk, field)[|Pad3(i)|] == '-'
    ensures forall m :: 0 <= m < |Pad3(i)| ==> IndexKey(i, pk, field)[m] == Pad3(i)[m] != '-'
  {
    IndexKeySplit(i, pk, field);
  }

  /** Different items of one array field get different keys, so the nested
      input has one entry per item. */
  lemma IndexKeyInjective(i: nat, j: nat, pk: string, field: string)
    requires IndexKey(i, pk, field) == IndexKey(j, pk, field)
    ensures i == j
  {
    var a, b := Pad3(i), Pad3(j);
    var k := IndexKey(i, pk, field);
    DashAfterDigits(i, pk, field);
    DashAfterDigits(j, pk, field);
    assert |a| == |b|;
    assert a == k[..|a|] == b;
    Pad3Injective(i, j);
  }

  /** Three digits compare as the number they spell. */
  lemma ThreeDigitOrder(i: nat, j: nat)
    requires i < j < 1000
    ensures i / 100 < j / 100
         || (i / 100 == j / 100 && i / 10 % 10 < j / 10 % 10)
         || (i / 100 == j / 100 && i / 10 % 10 == j / 10 % 10 && i % 10 < j % 10)
  {
    ThreeDigits(i);
    ThreeDigits(j);
  }

  lemma {:induction false} LessWithSuffix(a: string, b: string, s: string, t: string)
    requires |a| == |b| && Less(a, b)
    ensures Less(a + s, b + t)
  {
    if a[0] == b[0] {
      LessWithSuffix(a[1..], b[1..], s, t);
      assert (a + s)[1..] == a[1..] + s && (b + t)[1..] == b[1..] + t;
    }
  }

  lemma Pad3Order(i: nat, j: nat)
    requires i < j < 1000
    ensures |Pad3(i)| == |Pad3(j)| == 3
    ensures Less(Pad3(i), Pad3(j))
  {
    Pad3Digits(i);
    Pad3Digits(j);
    ThreeDigitOrder(i, j);
    var a, b := Pad3(i), Pad3(j);
    assert a[1..] == [a[1], a[2]] && b[1..] == [b[1], b[2]];
    assert a[1..][1..] == [a[2]] && b[1..][1..] == [b[2]];
  }

  /** Up to 1000 items the zero-padded index keeps its numeric order under the
      byte-wise key order, so sorting the nested rows by key gives back the
      array order. */
  lemma IndexKeyOrder(i: nat, j: nat, pk: string, field: string)
    requires i < j < 1000
    ensures Less(IndexKey(i, pk, field), IndexKey(j, pk, field))
  {
    Pad3Order(i, j);
    var rest := "-" + pk + "|" + field;
    LessWithSuffix(Pad3(i), Pad3(j), rest, rest);
    IndexKeySplit(i, pk, field);
    IndexKeySplit(j, pk, field);
  }

  lemma IndexKeySplit(i: nat, pk: string, field: string)
    ensures IndexKey(i, pk, field) == Pad3(i) + ("-" + pk + "|" + field)
  {
  }

  /** From the 1001st item on the padding no longer keeps the order: item 1000
      sorts before item 999. */
  lemma IndexKeyOrderBreaksAt1000(pk: string, field: string)
    ensures Less(IndexKey(1000, pk, field), IndexKey(999, pk, field))
  {
    Pad3Digits(999);
    assert Decimal(1000) == Decimal(100) + ['0'];
    assert Decimal(100) == Decimal(10) + ['0'];
    assert Decimal(10) == ['1', '0'];
  }
}
