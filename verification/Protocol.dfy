/** Encoding and parsing arrays, with the loops and buffers of the original. */
module Protocol {
  import opened ArrayText
  import opened Decimals
  import opened Sequences
  import opened Texts
  import opened Wrappers

  /** The parts of a text put together. */
  function Flat(parts: seq<string>): (text: string) {
    if parts == [] then "" else Flat(parts[..|parts| - 1]) + parts[|parts| - 1]
  }

  lemma {:induction false} FlatAppend(parts: seq<string>, part: string)
    ensures Flat(parts + [part]) == Flat(parts) + part
  {
    assert (parts + [part])[..|parts|] == parts;
  }

  lemma {:induction false} FlatLength(parts: seq<string>, i: nat)
    requires i < |parts|
    ensures Flat(parts[..i + 1]) == Flat(parts[..i]) + parts[i]
    ensures |Flat(parts[..i + 1])| <= |Flat(parts)|
    decreases |parts|
  {
    assert parts[..i + 1] == parts[..i] + [parts[i]];
    FlatAppend(parts[..i], parts[i]);
    var front := parts[..|parts| - 1];
    if i < |front| {
      FlatLength(front, i);
      assert front[..i + 1] == parts[..i + 1];
    } else {
      assert parts[..i + 1] == parts;
    }
  }

  lemma {:induction false} ItemsAppend(values: seq<int>, value: int)
    ensures ItemsText(values + [value]) == ItemsText(values) + "," + SignedDecimal(value)
  {
    if values == [] {
      assert ([] + [value])[1..] == [];
      assert "," + SignedDecimal(value) + "" == "" + "," + SignedDecimal(value);
    } else {
      ItemsAppend(values[1..], value);
      assert (values + [value])[1..] == values[1..] + [value];
      RegroupedFour("," + SignedDecimal(values[0]), ItemsText(values[1..]), ",", SignedDecimal(value));
    }
  }

  lemma {:induction false} HexAppend(bytes: seq<Byte>, byte: Byte)
    ensures HexText(bytes + [byte]) == HexText(bytes) + [HexDigit(byte / 16), HexDigit(byte % 16)]
  {
    if bytes == [] {
      assert [byte][1..] == [] && [] + [byte] == [byte];
    } else {
      HexAppend(bytes[1..], byte);
      assert (bytes + [byte])[1..] == bytes[1..] + [byte];
    }
  }

  /** Copies the parts to a buffer that holds exactly all of them and the terminating NUL. */
  method Concatenate(parts: seq<string>, totalLength: nat) returns (out: array<char>)
    requires totalLength == |Flat(parts)|
    ensures fresh(out) && out[..] == Flat(parts) + [NUL]
  {
    out := new char[totalLength + 1](_ => NUL);
    var dest := 0;
    assert parts[..0] == [];
    for i := 0 to |parts|
      invariant dest == |Flat(parts[..i])| <= totalLength
      invariant out[..dest] == Flat(parts[..i]) && out[totalLength] == NUL
    {
      FlatLength(parts, i);
      dest := CopyPart(out, dest, parts[i]);
    }
    assert parts[..|parts|] == parts;
  }

  method CopyPart(out: array<char>, dest: nat, part: string) returns (end: nat)
    requires dest + |part| <= out.Length
    modifies out
    ensures end == dest + |part|
    ensures out[..dest] == old(out[..dest]) && out[dest..end] == part && out[end..] == old(out[end..])
  {
    end := dest;
    for i := 0 to |part|
      invariant end == dest + i
      invariant out[..dest] == old(out[..dest]) && out[dest..end] == part[..i]
      invariant out[dest + |part|..] == old(out[dest + |part|..])
    {
      out[end] := part[i];
      end := end + 1;
    }
  }

  method EncodeIntArray(values: seq<int>) returns (out: array<char>)
    ensures fresh(out) && out[..] == IntsText(values) + [NUL]
  {
    if |values| == 0 {
      out := Concatenate(["0"], 1);
      return;
    }
    var s := Decimal(|values|);
    var parts, totalLength := [s], |s|;
    assert parts == [] + [s];
    FlatAppend([], s);
    for i := 0 to |values|
      invariant Flat(parts) == Decimal(|values|) + ItemsText(values[..i]) && totalLength == |Flat(parts)|
    {
      s := "," + SignedDecimal(values[i]);
      FlatAppend(parts, s);
      ItemsGrow(values, i);
      Regrouped(Decimal(|values|), ItemsText(values[..i]), s);
      parts := parts + [s];
      totalLength := totalLength + |s|;
    }
    assert values[..|values|] == values;
    out := Concatenate(parts, totalLength);
  }

  lemma {:induction false} ItemsGrow(values: seq<int>, i: nat)
    requires i < |values|
    ensures ItemsText(values[..i + 1]) == ItemsText(values[..i]) + ("," + SignedDecimal(values[i]))
  {
    assert values[..i + 1] == values[..i] + [values[i]];
    ItemsAppend(values[..i], values[i]);
  }

  lemma {:induction false} HexGrow(bytes: seq<Byte>, i: nat)
    requires i < |bytes|
    ensures HexText(bytes[..i + 1]) == HexText(bytes[..i]) + [HexDigit(bytes[i] / 16), HexDigit(bytes[i] % 16)]
  {
    assert bytes[..i + 1] == bytes[..i] + [bytes[i]];
    HexAppend(bytes[..i], bytes[i]);
  }

  method EncodeBlob(bytes: seq<Byte>) returns (out: array<char>)
    ensures fresh(out) && out[..] == BlobText(bytes) + [NUL]
  {
    if |bytes| == 0 {
      out := Concatenate(["0"], 1);
      return;
    }
    var s := Decimal(|bytes|) + ",";
    var parts, totalLength := [s], |s|;
    assert parts == [] + [s];
    FlatAppend([], s);
    for i := 0 to |bytes|
      invariant Flat(parts) == Decimal(|bytes|) + "," + HexText(bytes[..i]) && totalLength == |Flat(parts)|
    {
      s := [HexDigit(bytes[i] / 16), HexDigit(bytes[i] % 16)];
      FlatAppend(parts, s);
      HexGrow(bytes, i);
      Regrouped(Decimal(|bytes|) + ",", HexText(bytes[..i]), s);
      parts := parts + [s];
      totalLength := totalLength + |s|;
    }
    assert bytes[..|bytes|] == bytes;
    out := Concatenate(parts, totalLength);
  }

  /** The length of a string that may hold more after a NUL. */
  function StrLen(s: string): (n: nat) {
    PartEnd(s, {NUL})
  }

  /** Where a search begins; a negative start counts from the end. */
  function SearchFrom(s: string, start: int): int {
    if start < 0 then start + StrLen(s) else start
  }

  /** The place of the first comma from `start` on, -1 without any. */
  method StrPos(s: string, start: int) returns (i: int)
    ensures i == -1 || 0 <= SearchFrom(s, start) <= i < StrLen(s)
    ensures i != -1 ==> s[i] == ',' && forall j :: SearchFrom(s, start) <= j < i ==> s[j] != ','
    ensures i == -1 && 0 <= SearchFrom(s, start) ==> forall j :: SearchFrom(s, start) <= j < StrLen(s) ==> s[j] != ','
  {
    var length := StrLen(s);
    if length < 1 {
      return -1;
    }
    i := start;
    if start < 0 {
      i := start + length;
    }
    if i < 0 || i >= length {
      return -1;
    }
    while i <= length - 1
      invariant 0 <= SearchFrom(s, start) <= i <= length
      invariant forall j :: SearchFrom(s, start) <= j < i ==> s[j] != ','
    {
      if s[i] == ',' {
        return;
      }
      i := i + 1;
    }
    i := -1;
  }

  /** Whether `i` is where the search for the next comma ends, with a negative number for none. */
  ghost predicate IsNextComma(s: string, start: nat, i: int) {
    && start <= |s|
    && (i < 0 || start <= i < |s|)
    && (0 <= i <==> HasComma(s[start..]))
    && (0 <= i ==> start + PartEnd(s[start..], STOPS) == i)
  }

  lemma {:induction false} BeforeNul(s: string)
    ensures StrLen(s) < |s| ==> s[StrLen(s)] == NUL
    ensures forall j :: 0 <= j < StrLen(s) ==> s[j] != NUL
  {
    PartEndMeans(s, {NUL});
    assert forall j :: 0 <= j < StrLen(s) ==> s[..StrLen(s)][j] == s[j];
  }

  lemma {:induction false} CommaFound(s: string, start: nat, i: nat)
    requires start <= i < StrLen(s) && s[i] == ',' && forall j :: start <= j < i ==> s[j] != ','
    ensures IsNextComma(s, start, i)
  {
    BeforeNul(s);
    PartEndIs(s[start..i], s[i..], STOPS);
    assert s[start..i] + s[i..] == s[start..];
  }

  lemma {:induction false} NoCommaFound(s: string, start: nat)
    requires start <= StrLen(s) && forall j :: start <= j < StrLen(s) ==> s[j] != ','
    ensures IsNextComma(s, start, -1)
  {
    BeforeNul(s);
    var end := StrLen(s);
    PartEndIs(s[start..end], s[end..], STOPS);
    assert s[start..end] + s[end..] == s[start..];
  }

  /** The search from a place within the string. */
  method FindComma(s: string, start: nat) returns (i: int)
    requires start <= StrLen(s)
    ensures -1 <= i < StrLen(s) && IsNextComma(s, start, i)
  {
    i := StrPos(s, start);
    if i == -1 {
      NoCommaFound(s, start);
    } else {
      CommaFound(s, start, i);
    }
  }

  /** How many commas there are in the first `length` characters, up to a NUL. */
  method CountCommas(s: string, length: int) returns (count: nat)
    requires length <= |s|
    ensures count == if length <= 0 then 0 else Commas(s[..length])
  {
    count := 0;
    if length <= 0 {
      return;
    }
    var rest, left := s, length;
    while left != 0 && rest[0] != NUL
      invariant 0 <= left <= |rest|
      invariant count + Commas(rest[..left]) == Commas(s[..length])
    {
      assert rest[..left][1..] == rest[1..][..left - 1];
      if rest[0] == ',' {
        count := count + 1;
      }
      rest, left := rest[1..], left - 1;
    }
  }

  function Prepend<T>(items: seq<T>, rest: Option<seq<T>>): Option<seq<T>> {
    if rest.None? then None else Some(items + rest.value)
  }

  lemma {:induction false} PrependMore<T>(items: seq<T>, item: T, rest: Option<seq<T>>)
    ensures Prepend(items, Prepend([item], rest)) == Prepend(items + [item], rest)
  {
    if rest.Some? {
      assert items + ([item] + rest.value) == items + [item] + rest.value;
    }
  }

  /** What the loop has still to read. */
  ghost function Remaining(s: string, count: nat, offset: int, next: int): Option<seq<int>>
    requires count <= |s|
  {
    IntItems(if next >= 0 && 0 <= offset + 1 < count then s[offset + 1..count] else "", s[count..])
  }

  /** Fills an array of the announced length with the items that follow the first comma. */
  method ParseItems(s: string, count: nat, offsetSeparator: nat, length: nat) returns (values: Option<seq<int>>)
    requires offsetSeparator < count <= |s| && offsetSeparator < StrLen(s)
    ensures var items := IntItems(s[offsetSeparator + 1..count], s[count..]);
            values == if items.Some? && |items.value| == length then items else None
  {
    var arr := seq(length, _ => 0);
    var i, offset: int, next: int := 0, offsetSeparator, 0;
    ghost var items, done := IntItems(s[offsetSeparator + 1..count], s[count..]), [];
    AllRemain(s, count, offsetSeparator);
    while offset + 1 < count && next >= 0
      invariant i <= |arr| == length && done == arr[..i]
      invariant 0 <= next ==> offsetSeparator <= offset < StrLen(s)
      invariant items == Prepend(done, Remaining(s, count, offset, next))
      decreases if next < 0 then 0 else |s| + 1 - offset
    {
      var value: Option<int>;
      next, value := NextItem(s, count, offset, done, items);
      if value.None? {
        return None;
      }
      if i >= |arr| {
        return None;
      }
      arr := arr[i := value.value];
      OneMoreFilled(arr, done, i);
      done := done + [value.value];
      i := i + 1;
      offset := next;
    }
    NothingRemains(arr, i);
    if i != length {
      return None;
    }
    values := Some(arr);
  }

  /** Reads the item that follows a comma; -1 if no other comma follows. */
  method NextItem(s: string, count: nat, offset: nat, ghost done: seq<int>, ghost items: Option<seq<int>>)
    returns (next: int, value: Option<int>)
    requires offset + 1 < count <= |s| && offset < StrLen(s)
    requires items == Prepend(done, Remaining(s, count, offset, 0))
    ensures next == -1 || offset < next < StrLen(s)
    ensures value.None? ==> items == None
    ensures value.Some? ==> items == Prepend(done + [value.value], Remaining(s, count, next, next))
  {
    next := FindComma(s, offset + 1);
    var itemLength := (if next > offset then next else count) - offset - 1;
    Turn(s, count, offset, next, done, items);
    if itemLength < 1 {
      return next, None;
    }
    value := Some(AtoI(s[offset + 1..offset + 1 + itemLength]));
  }

  lemma {:induction false} NothingRemains(arr: seq<int>, i: nat)
    requires i <= |arr|
    ensures Prepend(arr[..i], Some([])) == Some(arr[..i])
    ensures i == |arr| ==> arr[..i] == arr
  {
    assert arr[..i] + [] == arr[..i];
  }

  lemma {:induction false} OneMoreFilled<T>(arr: seq<T>, before: seq<T>, i: nat)
    requires i < |arr| && arr[..i] == before
    ensures arr[..i + 1] == before + [arr[i]]
  {
  }

  /** The length of the item after `offset`, given where the next comma is found. */
  function ItemLength(count: nat, offset: nat, next: int): int {
    (if next < 0 then count else next) - offset - 1
  }

  /** One turn of the loop, given where it finds the next comma. */
  lemma {:induction false} Turn(
    s: string, count: nat, offset: nat, next: int, before: seq<int>, items: Option<seq<int>>)
    requires offset + 1 < count <= |s| && IsNextComma(s, offset + 1, next)
    requires items == Prepend(before, Remaining(s, count, offset, 0))
    ensures ItemLength(count, offset, next) < 1 ==> items == None
    ensures 1 <= ItemLength(count, offset, next) ==>
      items == Prepend(before + [AtoI(s[offset + 1..offset + 1 + ItemLength(count, offset, next)])],
                       Remaining(s, count, next, next))
  {
    ItemAt(s, count, offset, next);
    if 1 <= ItemLength(count, offset, next) {
      PrependMore(
        before, AtoI(s[offset + 1..offset + 1 + ItemLength(count, offset, next)]), Remaining(s, count, next, next));
    }
  }

  lemma {:induction false} AllRemain(s: string, count: nat, offset: nat)
    requires offset < count <= |s|
    ensures Prepend([], Remaining(s, count, offset, 0)) == IntItems(s[offset + 1..count], s[count..])
  {
    if offset + 1 == count {
      assert s[offset + 1..count] == "";
    }
    var items := IntItems(s[offset + 1..count], s[count..]);
    assert items.Some? ==> [] + items.value == items.value;
  }

  lemma {:induction false} ItemAt(s: string, count: nat, offset: nat, next: int)
    requires offset + 1 < count <= |s| && IsNextComma(s, offset + 1, next)
    ensures IntItems(s[offset + 1..count], s[count..]) ==
            if ItemLength(count, offset, next) < 1 then None
            else Prepend([AtoI(s[offset + 1..offset + 1 + ItemLength(count, offset, next)])],
                         Remaining(s, count, next, next))
  {
    if next < 0 {
      LastItemAt(s, count, offset, next);
    } else {
      ItemBefore(s, count, offset, next);
    }
  }

  lemma {:induction false} LastItemAt(s: string, count: nat, offset: nat, next: int)
    requires offset + 1 < count <= |s| && IsNextComma(s, offset + 1, next) && next < 0
    ensures IntItems(s[offset + 1..count], s[count..]) ==
            Prepend([AtoI(s[offset + 1..count])], Remaining(s, count, next, next))
  {
    BodyAndBeyond(s, offset + 1, count);
    OnlyOne(AtoI(s[offset + 1..count]), s[count..]);
  }

  lemma {:induction false} ItemBefore(s: string, count: nat, offset: nat, next: nat)
    requires offset + 1 < count <= |s| && IsNextComma(s, offset + 1, next)
    ensures IntItems(s[offset + 1..count], s[count..]) ==
            if next == offset + 1 then None
            else Prepend([AtoI(s[offset + 1..next])], Remaining(s, count, next, next))
  {
    FirstTaken(s, offset + 1, next, count);
    RestOfBody(s, offset + 1, next, count);
  }

  /** What follows the comma at `k`, or nothing. */
  function BehindComma(body: string, k: nat): string {
    if k < |body| then body[k + 1..] else ""
  }

  lemma {:induction false} FirstTaken(s: string, i: nat, next: nat, count: nat)
    requires i < count <= |s| && IsNextComma(s, i, next)
    ensures IntItems(s[i..count], s[count..]) ==
            if next - i == 0 then None
            else Prepend([AtoI(s[i..next])], IntItems(BehindComma(s[i..count], next - i), s[count..]))
  {
    BodyAndBeyond(s, i, count);
    UpTo(s, i, next);
    FirstOfItems(s[i..count], s[count..], s[i..], next - i, s[i..next]);
  }

  lemma {:induction false} FirstOfItems(body: string, beyond: string, text: string, k: nat, first: string)
    requires body + beyond == text && body != "" && HasComma(text) && k == PartEnd(text, STOPS) && first == text[..k]
    ensures IntItems(body, beyond) ==
            if k == 0 then None else Prepend([AtoI(first)], IntItems(BehindComma(body, k), beyond))
  {
  }

  lemma {:induction false} RestOfBody(s: string, i: nat, next: nat, count: nat)
    requires i < count <= |s| && i <= next
    ensures IntItems(BehindComma(s[i..count], next - i), s[count..]) == Remaining(s, count, next, next)
  {
    if next < count {
      Inside(s, i, next + 1, count);
      assert next + 1 == count ==> s[next + 1..count] == "";
    }
  }

  lemma {:induction false} BodyAndBeyond(s: string, i: nat, count: nat)
    requires i <= count <= |s|
    ensures s[i..count] + s[count..] == s[i..]
  {
  }

  lemma {:induction false} UpTo(s: string, i: nat, j: nat)
    requires i <= j <= |s|
    ensures s[i..][..j - i] == s[i..j]
  {
  }

  lemma {:induction false} Inside(s: string, i: nat, j: nat, count: nat)
    requires i <= j <= count <= |s|
    ensures s[i..count][j - i..] == s[j..count]
  {
  }

  lemma {:induction false} OnlyOne(value: int, beyond: string)
    ensures Prepend([value], IntItems("", beyond)) == Some([value])
  {
    assert [value] + [] == [value];
  }

  /** Parses an array of integers from the first `count` characters of a string, which may go on after them. */
  method ParseIntArray(s: string, count: int) returns (values: Option<seq<int>>)
    requires count <= |s|
    ensures values == if count < 1 then None else ParseInts(s, count)
  {
    if count < 1 {
      return None;
    }
    var separators := CountCommas(s, count);
    var offsetSeparator := FindComma(s, 0);
    assert s[0..] == s;
    if offsetSeparator == 0 || offsetSeparator > count {
      return None;
    }
    var length := AtoI(s[..if offsetSeparator > 0 then offsetSeparator else count]);
    if length < 0 || (length != 0 && length != separators) || (length == 0 && (separators > 1 || count > 2)) {
      return None;
    }
    if length == 0 {
      return Some([]);
    }
    CommaInside(s, count);
    values := ParseItems(s, count, offsetSeparator, length);
  }

  /** A comma that is counted is found. */
  lemma {:induction false} CommaInside(s: string, count: nat)
    requires count <= |s| && Commas(s[..count]) > 0
    ensures HasComma(s) && PartEnd(s, STOPS) < count
  {
    if s[0] != ',' {
      assert s[..count][1..] == s[1..][..count - 1];
      CommaInside(s[1..], count - 1);
    }
  }

  method ParseByte(s: string) returns (byte: Option<Byte>)
    requires |s| == 2
    ensures var (high, low) := (Nibble(s[0]), Nibble(s[1]));
            byte == if high.None? || low.None? then None else Some(high.value * 16 + low.value)
  {
    var out: Byte := 0;
    for i := 0 to 2
      invariant i == 1 ==> Nibble(s[0]) == Some(out) && out < 16
      invariant i == 2 ==>
                  Nibble(s[0]).Some? && Nibble(s[1]).Some? && out == Nibble(s[0]).value * 16 + Nibble(s[1]).value
    {
      var nibble := Nibble(s[i]);
      if nibble.None? {
        return None;
      }
      if i == 0 {
        out := nibble.value;
      } else {
        out := out * 16 + nibble.value;
      }
    }
    byte := Some(out);
  }

  /** Parses bytes from the first `count` characters of a string, which may go on after them. */
  method ParseByteArray(s: string, count: int) returns (bytes: Option<seq<Byte>>)
    requires count <= |s|
    ensures bytes == if count < 1 then None else ParseBlob(s, count)
  {
    if count < 1 {
      return None;
    }
    var offsetSeparator := FindComma(s, 0);
    assert s[0..] == s;
    if offsetSeparator == 0 || offsetSeparator > count {
      return None;
    }
    var length := AtoI(s[..if offsetSeparator > 0 then offsetSeparator else count]);
    var textLength := count - offsetSeparator - 1;
    if textLength < 0 || textLength % 2 != 0 || textLength / 2 != length {
      return None;
    }
    if length == 0 {
      return Some([]);
    }
    bytes := ParseHex(s, count, offsetSeparator, length);
  }

  method ParseHex(s: string, count: nat, offsetSeparator: int, length: nat) returns (bytes: Option<seq<Byte>>)
    requires -1 <= offsetSeparator < count <= |s| && 0 < length && count - offsetSeparator - 1 == 2 * length
    ensures bytes == HexItems(s[offsetSeparator + 1..count])
  {
    var arr: seq<Byte> := seq(length, _ => 0);
    var i, offset, next := 0, offsetSeparator, 0;
    ghost var items, done := HexItems(s[offsetSeparator + 1..count]), [];
    HexStarts(s[offsetSeparator + 1..count]);
    while offset + 1 < count && next >= 0
      invariant i <= |arr| == length && done == arr[..i]
      invariant 0 <= next ==> i < length && -1 <= offset && count - offset - 1 == 2 * (length - i)
      invariant 0 <= next ==> items == Prepend(done, HexItems(s[offset + 1..count]))
      invariant next < 0 ==> i == length && items == Some(done)
      decreases length - i
    {
      next := offset + 2;
      if next + 1 >= count {
        next := -1;
      }
      var byte := NextByte(s, count, offset, done, items);
      if byte.None? {
        return None;
      }
      arr := arr[i := byte.value];
      OneMoreFilled(arr, done, i);
      done := done + [byte.value];
      i := i + 1;
      offset := next;
    }
    AllFilled(arr);
    bytes := Some(arr);
  }

  lemma {:induction false} AllFilled(arr: seq<Byte>)
    ensures arr[..|arr|] == arr
  {
  }

  /** Reads the byte that starts behind `offset`. */
  method NextByte(s: string, count: nat, offset: int, ghost done: seq<Byte>, ghost items: Option<seq<Byte>>)
    returns (byte: Option<Byte>)
    requires -1 <= offset && offset + 3 <= count <= |s| && (count - offset - 1) % 2 == 0
    requires items == Prepend(done, HexItems(s[offset + 1..count]))
    ensures byte.None? ==> items == None
    ensures byte.Some? ==> items == Prepend(done + [byte.value], HexItems(s[offset + 3..count]))
    ensures byte.Some? && offset + 3 == count ==> items == Some(done + [byte.value])
  {
    HexTurn(s[offset + 1..count], done);
    Inside(s, offset + 1, offset + 3, count);
    byte := ParseByte(s[offset + 1..offset + 3]);
    if byte.Some? && offset + 3 == count {
      AllHexRead(done + [byte.value], s[offset + 3..count]);
    }
  }

  lemma {:induction false} HexStarts(body: string)
    requires |body| % 2 == 0
    ensures Prepend([], HexItems(body)) == HexItems(body)
  {
    assert HexItems(body).Some? ==> [] + HexItems(body).value == HexItems(body).value;
  }

  lemma {:induction false} HexTurn(body: string, before: seq<Byte>)
    requires |body| % 2 == 0 && 2 <= |body|
    ensures var (high, low) := (Nibble(body[0]), Nibble(body[1]));
            if high.None? || low.None? then HexItems(body).None?
            else Prepend(before, HexItems(body)) == Prepend(before + [high.value * 16 + low.value], HexItems(body[2..]))
  {
    var (high, low) := (Nibble(body[0]), Nibble(body[1]));
    if high.Some? && low.Some? {
      PrependMore(before, high.value * 16 + low.value, HexItems(body[2..]));
    }
  }

  lemma {:induction false} AllHexRead(arr: seq<Byte>, body: string)
    requires body == ""
    ensures Prepend(arr, HexItems(body)) == Some(arr)
    ensures arr[..|arr|] == arr
  {
    assert arr + [] == arr;
  }
}
