/** The text of arrays of integers and of bytes: the number of items, then the items. */
module ArrayText {
  import opened Decimals
  import opened Sequences
  import opened Texts
  import opened Wrappers

  type Byte = b: nat | b < 256

  /** Where a search for a comma ends at the latest: a string ends at the first NUL in memory. */
  const STOPS: set<char> := {',', NUL}

  /** Whether the search finds a comma. */
  predicate HasComma(text: string) {
    PartEnd(text, STOPS) < |text| && text[PartEnd(text, STOPS)] == ','
  }

  /** The items of an array of integers, a comma before each. */
  function ItemsText(values: seq<int>): (text: string) {
    if values == [] then "" else "," + SignedDecimal(values[0]) + ItemsText(values[1..])
  }

  function IntsText(values: seq<int>): (text: string) {
    if values == [] then "0" else Decimal(|values|) + ItemsText(values)
  }

  function HexDigit(d: nat): (ch: char)
    requires d < 16
  {
    if d < 10 then '0' + d as char else 'A' + (d - 10) as char
  }

  function HexText(bytes: seq<Byte>): (text: string)
    ensures |text| == 2 * |bytes|
  {
    if bytes == [] then "" else [HexDigit(bytes[0] / 16), HexDigit(bytes[0] % 16)] + HexText(bytes[1..])
  }

  function BlobText(bytes: seq<Byte>): (text: string) {
    if bytes == [] then "0" else Decimal(|bytes|) + "," + HexText(bytes)
  }

  /** How many commas there are, up to a NUL. */
  function Commas(text: string): (n: nat) {
    if text == "" || text[0] == NUL then 0 else (if text[0] == ',' then 1 else 0) + Commas(text[1..])
  }

  /**
   The items after the first comma. `body` is what belongs to the array, `beyond` what follows it in memory: an item
   ends at the next comma, wherever that is, and the first item that ends outside of `body` is the last one.
   */
  function IntItems(body: string, beyond: string): (items: Option<seq<int>>)
    decreases |body|
  {
    var next := PartEnd(body + beyond, STOPS);
    if body == "" then Some([])
    else if !HasComma(body + beyond) then Some([AtoI(body)])
    else if next == 0 then None
    else
      var rest := IntItems(if next < |body| then body[next + 1..] else "", beyond);
      if rest.None? then None else Some([AtoI((body + beyond)[..next])] + rest.value)
  }

  /** The array of integers in the first `count` characters of a text. */
  function ParseInts(text: string, count: nat): (values: Option<seq<int>>)
    requires count <= |text|
  {
    var (end, found) := (PartEnd(text, STOPS), HasComma(text));
    if count == 0 || (found && (end == 0 || count < end)) then None
    else
      var n := AtoI(text[..if found then end else count]);
      var commas := Commas(text[..count]);
      if n < 0 || (n != 0 && n != commas) || (n == 0 && (commas > 1 || count > 2)) then None
      else if n == 0 then Some([])
      else
        var items := IntItems(if end < count then text[end + 1..count] else "", text[count..]);
        if items.Some? && |items.value| == n then items else None
  }

  function Nibble(ch: char): (d: Option<nat>)
    ensures d.Some? ==> d.value < 16
  {
    if '0' <= ch <= '9' then Some((ch - '0') as nat)
    else if 'A' <= ch <= 'F' then Some(10 + (ch - 'A') as nat)
    else if 'a' <= ch <= 'f' then Some(10 + (ch - 'a') as nat)
    else None
  }

  function HexItems(body: string): (bytes: Option<seq<Byte>>)
    requires |body| % 2 == 0
  {
    if body == "" then Some([])
    else
      var (high, low, rest) := (Nibble(body[0]), Nibble(body[1]), HexItems(body[2..]));
      if high.None? || low.None? || rest.None? then None else Some([high.value * 16 + low.value] + rest.value)
  }

  /** The bytes in the first `count` characters of a text. Without a comma, all of it is both length and items. */
  function ParseBlob(text: string, count: nat): (bytes: Option<seq<Byte>>)
    requires count <= |text|
  {
    var (end, found) := (PartEnd(text, STOPS), HasComma(text));
    if count == 0 || (found && (end == 0 || count < end)) then None
    else
      var n := AtoI(text[..if found then end else count]);
      var start := if found then end + 1 else 0;
      if start > count || (count - start) % 2 != 0 || (count - start) / 2 != n then None
      else HexItems(text[start..count])
  }

  lemma {:induction false} DigitsHaveNoComma(n: nat)
    ensures Without(Decimal(n), STOPS)
  {
    forall i | 0 <= i < |Decimal(n)|
      ensures Decimal(n)[i] !in STOPS
    {
      assert IsDigit(Decimal(n)[i]);
    }
  }

  lemma {:induction false} NumbersHaveNoComma(n: int)
    ensures Without(SignedDecimal(n), STOPS)
  {
    DigitsHaveNoComma(if n < 0 then -n else n);
  }

  lemma {:induction false} CommasOfParts(s: string, t: string)
    requires NUL !in s
    ensures Commas(s + t) == Commas(s) + Commas(t)
  {
    if s == "" {
      assert s + t == t;
    } else {
      assert (s + t)[1..] == s[1..] + t;
      CommasOfParts(s[1..], t);
    }
  }

  lemma {:induction false} NoCommas(s: string)
    requires Without(s, STOPS)
    ensures Commas(s) == 0
  {
    if s != "" {
      NoCommas(s[1..]);
    }
  }

  lemma {:induction false} ItemsHaveNoNul(values: seq<int>)
    ensures NUL !in ItemsText(values)
  {
    if values != [] {
      NumbersHaveNoComma(values[0]);
      ItemsHaveNoNul(values[1..]);
    }
  }

  /** One comma per item. */
  lemma {:induction false} ItemsCommas(values: seq<int>)
    ensures Commas(ItemsText(values)) == |values|
  {
    if values != [] {
      var number := SignedDecimal(values[0]);
      NumbersHaveNoComma(values[0]);
      NoCommas(number);
      CommasOfParts("," + number, ItemsText(values[1..]));
      CommasOfParts(",", number);
      ItemsCommas(values[1..]);
    }
  }

  /** What the last item of an array is read as if `beyond` follows it in memory: it may run on to the next comma. */
  function LastValue(value: int, beyond: string): int {
    if HasComma(beyond) then AtoI(SignedDecimal(value) + beyond[..PartEnd(beyond, STOPS)]) else value
  }

  /** Whether the last item stays as it is: more digits in front of a comma change it, except zeros after a zero. */
  predicate KeepsLast(value: int, beyond: string) {
    || !HasComma(beyond)
    || !IsDigit(beyond[0])
    || (value == 0 && Value(beyond[..DigitRun(beyond)]) == 0)
  }

  lemma {:induction false} LastItem(value: int, beyond: string)
    ensures IntItems(SignedDecimal(value), beyond) == Some([LastValue(value, beyond)])
  {
    var number, k := SignedDecimal(value), PartEnd(beyond, STOPS);
    NumbersHaveNoComma(value);
    PartEndAfter(number, beyond, STOPS);
    AtoIOfPrinted(value, "");
    assert number + "" == number;
    assert (number + beyond)[..|number| + k] == number + beyond[..k];
    assert [LastValue(value, beyond)] + [] == [LastValue(value, beyond)] && IntItems("", beyond) == Some([]);
  }

  lemma {:induction false} LastValueStays(value: int, beyond: string)
    ensures LastValue(value, beyond) == value <==> KeepsLast(value, beyond)
  {
    if HasComma(beyond) {
      var k := PartEnd(beyond, STOPS);
      if IsDigit(beyond[0]) {
        DigitsBefore(beyond, k);
        SplitAt(beyond[..k], DigitRun(beyond), beyond);
        MoreDigitsRead(value, beyond[..DigitRun(beyond)], beyond[..k][DigitRun(beyond)..]);
      } else {
        AtoIOfPrinted(value, beyond[..k]);
      }
    }
  }

  lemma {:induction false} SplitAt(text: string, k: nat, longer: string)
    requires k <= |text| <= |longer| && longer[..|text|] == text
    ensures longer[..k] + text[k..] == text
  {
  }

  /** A run of digits ends in front of a comma. */
  lemma {:induction false} DigitsBefore(text: string, k: nat)
    requires k < |text| && !IsDigit(text[k])
    ensures DigitRun(text) <= k
    ensures DigitRun(text) < k ==> !IsDigit(text[..k][DigitRun(text)..][0])
  {
    if IsDigit(text[0]) {
      DigitsBefore(text[1..], k - 1);
    }
  }

  /** Reading a printed number with more digits behind it. */
  lemma {:induction false} MoreDigitsRead(value: int, digits: string, rest: string)
    requires digits != "" && IsDigits(digits) && (rest != "" ==> !IsDigit(rest[0]))
    ensures AtoI(SignedDecimal(value) + (digits + rest)) == value <==> value == 0 && Value(digits) == 0
  {
    LongerNumber(if value < 0 then -value else value, digits, rest);
    if value < 0 {
      Signed(Decimal(-value), digits + rest);
    }
  }

  lemma {:induction false} LongerNumber(n: nat, digits: string, rest: string)
    requires digits != "" && IsDigits(digits) && (rest != "" ==> !IsDigit(rest[0]))
    ensures var text := Decimal(n) + (digits + rest);
            AtoI(text) == Value(Decimal(n) + digits) && text[..DigitRun(text)] == Decimal(n) + digits
    ensures Value(Decimal(n) + digits) == n <==> n == 0 && Value(digits) == 0
  {
    Regrouped(Decimal(n), digits, rest);
    ReadsDigits(Decimal(n) + digits, rest);
    LongerValue(n, digits);
  }

  lemma {:induction false} LongerValue(n: nat, digits: string)
    requires digits != "" && IsDigits(digits)
    ensures Value(Decimal(n) + digits) == n <==> n == 0 && Value(digits) == 0
  {
    var number := Decimal(n);
    DecimalValue(n);
    PrefixValue(number + digits, |number|);
    assert (number + digits)[..|number|] == number;
    if n == 0 {
      LeadingZero(digits);
    }
  }

  lemma {:induction false} LeadingZero(digits: string)
    requires IsDigits(digits)
    ensures Value("0" + digits) == Value(digits)
  {
    if digits == "" {
      assert Value("0" + digits) == Value("0") == 0;
    } else {
      LeadingZero(digits[..|digits| - 1]);
      assert ("0" + digits)[..|digits|] == "0" + digits[..|digits| - 1];
    }
  }

  lemma {:induction false} ItemThenMore(value: int, more: string, beyond: string)
    requires more != "" && more[0] == ','
    ensures IntItems(SignedDecimal(value) + more, beyond) ==
            var rest := IntItems(more[1..], beyond);
            if rest.None? then None else Some([value] + rest.value)
  {
    var number := SignedDecimal(value);
    NumbersHaveNoComma(value);
    PartEndIs(number, more + beyond, STOPS);
    assert number + more + beyond == number + (more + beyond);
    assert (number + more + beyond)[..|number|] == number && (number + more)[|number| + 1..] == more[1..];
    AtoIOfPrinted(value, "");
    assert number + "" == number;
  }

  /** The items of an array as they are read back. */
  function ReadBack(values: seq<int>, beyond: string): seq<int>
    requires values != []
  {
    if |values| == 1 then [LastValue(values[0], beyond)] else [values[0]] + ReadBack(values[1..], beyond)
  }

  lemma {:induction false} ReadBackSame(values: seq<int>, beyond: string)
    requires values != []
    ensures ReadBack(values, beyond) == values[..|values| - 1] + [LastValue(values[|values| - 1], beyond)]
  {
    if |values| > 1 {
      ReadBackSame(values[1..], beyond);
      assert [values[0]] + values[1..][..|values| - 2] == values[..|values| - 1];
    }
  }

  lemma {:induction false} ItemsOfText(values: seq<int>, beyond: string)
    requires values != []
    ensures IntItems(ItemsText(values)[1..], beyond) == Some(ReadBack(values, beyond))
    ensures |ReadBack(values, beyond)| == |values|
  {
    if |values| == 1 {
      LastItem(values[0], beyond);
      OnlyItem(values);
    } else {
      FirstItem(values);
      ItemThenMore(values[0], ItemsText(values[1..]), beyond);
      ItemsOfText(values[1..], beyond);
    }
  }

  lemma {:induction false} OnlyItem(values: seq<int>)
    requires |values| == 1
    ensures ItemsText(values)[1..] == SignedDecimal(values[0]) && values == [values[0]]
  {
    assert values[1..] == [];
  }

  lemma {:induction false} FirstItem(values: seq<int>)
    requires values != []
    ensures ItemsText(values)[1..] == SignedDecimal(values[0]) + ItemsText(values[1..])
    ensures [values[0]] + values[1..] == values
  {
    Behind(SignedDecimal(values[0]), ItemsText(values[1..]));
  }

  lemma {:induction false} Behind(a: string, b: string)
    ensures ("," + a + b)[1..] == a + b
  {
  }

  /** What may follow an encoded array in memory without making a difference. */
  predicate Harmless(values: seq<int>, beyond: string) {
    if values == [] then !HasComma(beyond) || beyond[0] == ',' else KeepsLast(values[|values| - 1], beyond)
  }

  /**
   Parsing an encoded array of integers, empty or not, gives the array back if and only if what follows it in memory is
   harmless; nothing, or whatever has no comma, is.
   */
  lemma {:induction false} IntsRoundTrip(values: seq<int>, beyond: string)
    ensures ParseInts(IntsText(values) + beyond, |IntsText(values)|) == Some(values) <==> Harmless(values, beyond)
    ensures ',' !in beyond ==> Harmless(values, beyond)
  {
    if values == [] {
      EmptyRoundTrip(beyond);
    } else {
      IntsReadBack(values, beyond);
      ReadBackSame(values, beyond);
      LastOnly(values, LastValue(values[|values| - 1], beyond));
      LastValueStays(values[|values| - 1], beyond);
    }
  }

  lemma {:induction false} LastOnly(values: seq<int>, last: int)
    requires values != []
    ensures values[..|values| - 1] + [last] == values <==> last == values[|values| - 1]
  {
    assert (values[..|values| - 1] + [last])[|values| - 1] == last;
  }

  /** In any case all items but the last come back. */
  lemma {:induction false} IntsReadBack(values: seq<int>, beyond: string)
    requires values != []
    ensures ParseInts(IntsText(values) + beyond, |IntsText(values)|) == Some(ReadBack(values, beyond))
  {
    var (prefix, items) := (Decimal(|values|), ItemsText(values));
    DigitsHaveNoComma(|values|);
    CommasOfParts(prefix, items);
    NoCommas(prefix);
    ItemsCommas(values);
    PrefixRead(|values|);
    ArrayRead(prefix, items, beyond);
    ItemsOfText(values, beyond);
  }

  /** How an array with a length in front is taken apart. */
  lemma {:induction false} ArrayRead(prefix: string, items: string, beyond: string)
    requires Without(prefix, STOPS) && prefix != "" && items != "" && items[0] == ','
    requires 0 < AtoI(prefix) == Commas(prefix + items)
    ensures ParseInts(prefix + items + beyond, |prefix + items|) ==
            var read := IntItems(items[1..], beyond);
            if read.Some? && |read.value| == AtoI(prefix) then read else None
  {
    PrefixAndItems(prefix, items, beyond);
    PartEndIs(prefix, items + beyond, STOPS);
  }

  lemma {:induction false} PrefixRead(n: nat)
    ensures AtoI(Decimal(n)) == n
  {
    AtoIOfPrinted(n, "");
    assert SignedDecimal(n) + "" == Decimal(n);
  }

  lemma {:induction false} PrefixAndItems(prefix: string, items: string, beyond: string)
    requires items != ""
    ensures var text := prefix + items + beyond;
            && text == prefix + (items + beyond) && text[..|prefix|] == prefix
            && text[..|prefix + items|] == prefix + items
            && text[|prefix| + 1..|prefix + items|] == items[1..] && text[|prefix + items|..] == beyond
  {
  }

  lemma {:induction false} EmptyRoundTrip(beyond: string)
    ensures ParseInts("0" + beyond, 1) == if Harmless([], beyond) then Some([]) else None
  {
    PartEndAfter("0", beyond, STOPS);
    PrefixRead(0);
    assert ("0" + beyond)[..1] == "0" == Decimal(0);
    NoCommas("0");
  }

  /** What follows an array that is not harmless can change it: here the comma and the digit before it do. */
  lemma {:induction false} ReadsBeyond()
    ensures ParseInts("1,1" + "2,", 3) == Some([12])
  {
    IntsReadBack([1], "2,");
    TextOfOne();
    TwelveRead();
  }

  lemma {:induction false} TextOfOne()
    ensures IntsText([1]) == "1,1"
  {
    assert Decimal(1) == "1" && [1][1..] == [];
    assert ItemsText([1]) == "," + "1" + "";
  }

  lemma {:induction false} TwelveRead()
    ensures LastValue(1, "2,") == 12
  {
    PartEndIs("2", ",", STOPS);
    assert "2" + "," == "2," && "2,"[..1] == "2" && SignedDecimal(1) + "2" == "12";
    assert Decimal(12) == Decimal(1) + "2";
    PrefixRead(12);
  }

  lemma {:induction false} HexRoundTrip(bytes: seq<Byte>)
    ensures HexItems(HexText(bytes)) == Some(bytes)
  {
    if bytes != [] {
      var text := HexText(bytes);
      HexRoundTrip(bytes[1..]);
      NibbleOfDigit(bytes[0] / 16);
      NibbleOfDigit(bytes[0] % 16);
      assert text[2..] == HexText(bytes[1..]);
      assert [bytes[0]] + bytes[1..] == bytes;
    }
  }

  lemma {:induction false} NibbleOfDigit(d: nat)
    requires d < 16
    ensures Nibble(HexDigit(d)) == Some(d)
  {
  }

  /** Parsing an encoded blob gives it back if and only if it is not empty; "0" is refused whatever follows it. */
  lemma {:induction false} BlobRoundTrip(bytes: seq<Byte>, beyond: string)
    ensures bytes != [] ==> ParseBlob(BlobText(bytes) + beyond, |BlobText(bytes)|) == Some(bytes)
    ensures bytes == [] ==> ParseBlob(BlobText(bytes) + beyond, |BlobText(bytes)|) == None
  {
    if bytes == [] {
      PartEndAfter("0", beyond, STOPS);
    } else {
      BlobRead(Decimal(|bytes|), HexText(bytes), beyond);
      DigitsHaveNoComma(|bytes|);
      PrefixRead(|bytes|);
      HexRoundTrip(bytes);
    }
  }

  /** How a blob with a length in front and a comma after it is taken apart. */
  lemma {:induction false} BlobRead(prefix: string, items: string, beyond: string)
    requires prefix != "" && |items| % 2 == 0
    ensures Without(prefix, STOPS) ==>
      ParseBlob(prefix + "," + items + beyond, |prefix + "," + items|) ==
      if AtoI(prefix) == |items| / 2 then HexItems(items) else None
  {
    if Without(prefix, STOPS) {
      PrefixAndItems(prefix, "," + items, beyond);
      PartEndIs(prefix, "," + items + beyond, STOPS);
      assert prefix + "," + items == prefix + ("," + items);
    }
  }
}
