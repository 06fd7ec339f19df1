/**
  The zero-padded decimal order keys of child rows: `getNextOrderKey`, `indexToOrderKey`, and the
  lexicographic order in which the database reads them back.
 */
module OrderKeys {
  import opened Wrappers

  const ORDER_KEY_INITIAL := "00001"
  const ORDER_KEY_PAD_LENGTH := 5

  /** The last position whose key still has ORDER_KEY_PAD_LENGTH characters, plus one. */
  const MAX_ORDERED := 99999

  // ----- decimal printing and parsing -----

  function DigitChar(d: nat): char
    requires d < 10
  {
    '0' + d as char
  }

  predicate IsDigit(c: char) {
    '0' <= c <= '9'
  }

  predicate AllDigits(s: string) {
    forall i :: 0 <= i < |s| ==> IsDigit(s[i])
  }

  function PrintNat(n: nat): string {
    if n < 10 then [DigitChar(n)] else PrintNat(n / 10) + [DigitChar(n % 10)]
  }

  /** The template literal `${n}`. */
  function PrintInt(n: int): string {
    if n < 0 then "-" + PrintNat(-n) else PrintNat(n)
  }

  function PadStart(s: string, width: nat): string
    decreases width - |s|
  {
    if |s| >= width then s else PadStart("0" + s, width)
  }

  function DigitsValue(s: string): nat
    requires AllDigits(s)
  {
    if s == "" then 0 else DigitsValue(s[..|s| - 1]) * 10 + (s[|s| - 1] - '0') as nat
  }

  predicate IsSpace(c: char) {
    c in " \t\n\r\U{000B}\U{000C}\U{00A0}\U{1680}\U{2028}\U{2029}\U{202F}\U{205F}\U{3000}\U{FEFF}"
    || '\U{2000}' <= c <= '\U{200A}'
  }

  function SkipSpace(s: string): string {
    if s != "" && IsSpace(s[0]) then SkipSpace(s[1..]) else s
  }

  /** The longest prefix of decimal digits. */
  function DigitPrefix(s: string): (p: string)
    ensures AllDigits(p) && p <= s
  {
    if s != "" && IsDigit(s[0]) then [s[0]] + DigitPrefix(s[1..]) else ""
  }

  /** `parseInt(s, 10)`; None is NaN. */
  function ParseInt(s: string): Option<int> {
    var t := SkipSpace(s);
    var signed := t != "" && (t[0] == '-' || t[0] == '+');
    var digits := DigitPrefix(if signed then t[1..] else t);
    if digits == "" then None
    else if signed && t[0] == '-' then Some(-(DigitsValue(digits) as int))
    else Some(DigitsValue(digits))
  }

  // ----- the two key functions -----

  function GetNextOrderKey(currentKey: Option<string>): string {
    if currentKey.None? || currentKey.value == "" then ORDER_KEY_INITIAL
    else match ParseInt(currentKey.value)
      case None => ORDER_KEY_INITIAL
      case Some(num) => PadStart(PrintInt(num + 1), ORDER_KEY_PAD_LENGTH)
  }

  function IndexToOrderKey(index: nat): string {
    PadStart(PrintInt(index + 1), ORDER_KEY_PAD_LENGTH)
  }

  // ----- lexicographic order -----

  /** String comparison, character by character. */
  predicate LexLess(a: string, b: string) {
    b != "" && (a == "" || a[0] < b[0] || (a[0] == b[0] && LexLess(a[1..], b[1..])))
  }

  lemma {:induction false} LexLessIrreflexive(a: string)
    ensures !LexLess(a, a)
  {
    if a != "" {
      LexLessIrreflexive(a[1..]);
    }
  }

  lemma {:induction false} LexLessTransitive(a: string, b: string, c: string)
    requires LexLess(a, b) && LexLess(b, c)
    ensures LexLess(a, c)
  {
    if a != "" && a[0] == b[0] == c[0] {
      LexLessTransitive(a[1..], b[1..], c[1..]);
    }
  }

  lemma {:induction false} LexLessTotal(a: string, b: string)
    ensures a == b || LexLess(a, b) || LexLess(b, a)
  {
    if a != "" && b != "" && a[0] == b[0] {
      LexLessTotal(a[1..], b[1..]);
      if a[1..] == b[1..] {
        assert a == [a[0]] + a[1..] == [b[0]] + b[1..] == b;
      }
    }
  }

  lemma {:induction false} LexLessSnoc(a: string, x: char, b: string, y: char)
    requires |a| == |b|
    ensures LexLess(a + [x], b + [y]) <==> LexLess(a, b) || (a == b && x < y)
  {
    var left, right := a + [x], b + [y];
    if a == "" {
      assert left[1..] == "" && right[1..] == "";
    } else {
      assert left[1..] == a[1..] + [x] && right[1..] == b[1..] + [y];
      LexLessSnoc(a[1..], x, b[1..], y);
      if a[0] == b[0] {
        assert a == [a[0]] + a[1..] && b == [b[0]] + b[1..];
      }
    }
  }

  /** On digit strings of one length, lexicographic order is numeric order. */
  lemma {:induction false} LexLessIsNumeric(a: string, b: string)
    requires AllDigits(a) && AllDigits(b) && |a| == |b|
    ensures LexLess(a, b) <==> DigitsValue(a) < DigitsValue(b)
    decreases |a|
  {
    if a != "" {
      var n := |a| - 1;
      LexLessIsNumeric(a[..n], b[..n]);
      LexLessIsNumeric(b[..n], a[..n]);
      LexLessTotal(a[..n], b[..n]);
      LexLessSnoc(a[..n], a[n], b[..n], b[n]);
      assert a == a[..n] + [a[n]] && b == b[..n] + [b[n]];
    }
  }

  // ----- printing is undone by parsing -----

  lemma {:induction false} PrintNatValue(n: nat)
    ensures PrintNat(n) != "" && AllDigits(PrintNat(n)) && DigitsValue(PrintNat(n)) == n
  {
    if n < 10 {
      assert PrintNat(n)[..0] == "";
    } else {
      PrintNatValue(n / 10);
      var s := PrintNat(n);
      assert s[..|s| - 1] == PrintNat(n / 10);
    }
  }

  lemma {:induction false} LeadingZero(s: string)
    requires AllDigits(s)
    ensures DigitsValue("0" + s) == DigitsValue(s)
  {
    var z := "0" + s;
    if s == "" {
      assert z[..0] == "";
    } else {
      assert z[..|z| - 1] == "0" + s[..|s| - 1];
      LeadingZero(s[..|s| - 1]);
    }
  }

  lemma {:induction false} PadStartValue(s: string, width: nat)
    requires AllDigits(s)
    ensures |PadStart(s, width)| == if |s| < width then width else |s|
    ensures AllDigits(PadStart(s, width)) && DigitsValue(PadStart(s, width)) == DigitsValue(s)
    decreases width - |s|
  {
    if |s| < width {
      LeadingZero(s);
      PadStartValue("0" + s, width);
    }
  }

  lemma {:induction false} DigitPrefixOfDigits(s: string)
    requires AllDigits(s)
    ensures DigitPrefix(s) == s
  {
    if s != "" {
      DigitPrefixOfDigits(s[1..]);
    }
  }

  /** `parseInt` inverts `indexToOrderKey` at every index, however many digits the key has. */
  lemma IndexToOrderKeyParses(index: nat)
    ensures AllDigits(IndexToOrderKey(index))
    ensures DigitsValue(IndexToOrderKey(index)) == index + 1
    ensures ParseInt(IndexToOrderKey(index)) == Some(index + 1)
  {
    PrintNatValue(index + 1);
    PadStartValue(PrintNat(index + 1), ORDER_KEY_PAD_LENGTH);
    var key := IndexToOrderKey(index);
    assert key != "" && IsDigit(key[0]);
    DigitPrefixOfDigits(key);
  }

  /** Appending after position `index` yields the key of the next position. */
  lemma NextOrderKeyIsNextIndex(index: nat)
    ensures GetNextOrderKey(Some(IndexToOrderKey(index))) == IndexToOrderKey(index + 1)
  {
    IndexToOrderKeyParses(index);
    assert IndexToOrderKey(index) != "";
  }

  /** The first row gets the key of position 0. */
  lemma InitialKeyIsFirstIndex()
    ensures GetNextOrderKey(None) == IndexToOrderKey(0)
  {
    assert PrintNat(1) == "1";
    assert "0" + "1" == "01" && "0" + "01" == "001" && "0" + "001" == "0001" && "0" + "0001" == "00001";
    assert PadStart("1", 5) == PadStart("01", 5) == PadStart("001", 5) == PadStart("0001", 5) == "00001";
  }

  // ----- how long a key is, and when the keys sort -----

  function Pow10(k: nat): nat {
    if k == 0 then 1 else 10 * Pow10(k - 1)
  }

  lemma {:induction false} PrintNatLength(n: nat, k: nat)
    requires k >= 1
    ensures |PrintNat(n)| <= k <==> n < Pow10(k)
  {
    if k == 1 {
      assert Pow10(1) == 10;
      if n >= 10 {
        PrintNatValue(n / 10);
      }
    } else if n >= 10 {
      PrintNatLength(n / 10, k - 1);
    } else {
      PowerAtLeastTen(k);
    }
  }

  lemma {:induction false} PowerAtLeastTen(k: nat)
    requires k >= 1
    ensures Pow10(k) >= 10
  {
    if k > 1 {
      PowerAtLeastTen(k - 1);
    }
  }

  lemma FiveDigitKeys(index: nat)
    ensures |IndexToOrderKey(index)| == 5 <==> index < MAX_ORDERED
  {
    PrintNatValue(index + 1);
    PadStartValue(PrintNat(index + 1), ORDER_KEY_PAD_LENGTH);
    PrintNatLength(index + 1, 5);
    assert Pow10(5) == 10 * Pow10(4) == 100 * Pow10(3) == 1000 * Pow10(2) == 10000 * Pow10(1) == 100000;
  }

  lemma OrderKeysIncrease(i: nat, j: nat)
    requires i < j < MAX_ORDERED
    ensures LexLess(IndexToOrderKey(i), IndexToOrderKey(j))
  {
    IndexToOrderKeyParses(i);
    IndexToOrderKeyParses(j);
    FiveDigitKeys(i);
    FiveDigitKeys(j);
    LexLessIsNumeric(IndexToOrderKey(i), IndexToOrderKey(j));
  }

  /** The hundred-thousandth key sorts before its predecessor. */
  lemma SixDigitKeySortsFirst()
    ensures LexLess(IndexToOrderKey(MAX_ORDERED), IndexToOrderKey(MAX_ORDERED - 1))
  {
    PrintNatValue(1); PrintNatValue(9);
    assert PrintNat(10) == "10";
    assert PrintNat(100) == "100";
    assert PrintNat(1000) == "1000";
    assert PrintNat(10000) == "10000";
    assert PrintNat(100000) == "100000";
    assert PrintNat(99) == "99";
    assert PrintNat(999) == "999";
    assert PrintNat(9999) == "9999";
    assert PrintNat(99999) == "99999";
    assert LexLess("100000", "99999");
  }

  /** Keys of positions 0..n sort in position order exactly while n is at most 99999. */
  lemma OrderKeysSortIff(n: nat)
    ensures (forall i: nat, j: nat :: i < j < n ==> LexLess(IndexToOrderKey(i), IndexToOrderKey(j)))
       <==> n <= MAX_ORDERED
  {
    if n <= MAX_ORDERED {
      forall i: nat, j: nat | i < j < n ensures LexLess(IndexToOrderKey(i), IndexToOrderKey(j)) {
        OrderKeysIncrease(i, j);
      }
    } else {
      SixDigitKeySortsFirst();
      var a, b := IndexToOrderKey(MAX_ORDERED - 1), IndexToOrderKey(MAX_ORDERED);
      if LexLess(a, b) {
        LexLessTransitive(a, b, a);
        LexLessIrreflexive(a);
      }
    }
  }
}
