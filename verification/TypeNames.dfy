/** Lists of type names and the sets of types they stand for. */
module TypeNames {
  import opened ArrayText
  import opened Texts
  import opened Wrappers

  datatype XpType = Int | Float | Double | IntArray | FloatArray | Blob

  function Name(t: XpType): (name: string) {
    match t
    case Int => "int"
    case Float => "float"
    case Double => "double"
    case IntArray => "int[]"
    case FloatArray => "float[]"
    case Blob => "blob"
  }

  function ParseType(s: string): (t: Option<XpType>)
    ensures t.Some? ==> Name(t.value) == s
  {
    if s == "int" then Some(Int)
    else if s == "float" then Some(Float)
    else if s == "double" then Some(Double)
    else if s == "int[]" then Some(IntArray)
    else if s == "float[]" then Some(FloatArray)
    else if s == "blob" then Some(Blob)
    else None
  }

  lemma {:induction false} NameParses(t: XpType)
    ensures ParseType(Name(t)) == Some(t) && Without(Name(t), STOPS)
  {
  }

  /**
   The types in the first `count` characters of a text, with those already seen; none if a name is unknown or a type
   is listed twice. The end of a name is looked for in the whole text.
   */
  function TypesFrom(text: string, count: int, seen: set<XpType>): set<XpType>
    requires count <= |text|
    decreases |text|
  {
    if count <= 0 then seen
    else
      var (end, found) := (PartEnd(text, STOPS), HasComma(text));
      var t := ParseType(text[..if found then end else count]);
      if t.None? || t.value in seen then {}
      else if found then TypesFrom(text[end + 1..], count - end - 1, seen + {t.value})
      else seen + {t.value}
  }

  function ListText(types: seq<XpType>): string
    requires types != []
  {
    if |types| == 1 then Name(types[0]) else Name(types[0]) + "," + ListText(types[1..])
  }

  ghost predicate Distinct(types: seq<XpType>) {
    forall i, j :: 0 <= i < j < |types| ==> types[i] != types[j]
  }

  ghost function AsSet(types: seq<XpType>): set<XpType> {
    set i | 0 <= i < |types| :: types[i]
  }

  /** What the last name of a list is read as if `beyond` follows it in memory: it may run on to the next comma. */
  function LastType(t: XpType, beyond: string): Option<XpType> {
    if HasComma(beyond) then ParseType(Name(t) + beyond[..PartEnd(beyond, STOPS)]) else Some(t)
  }

  /** The types of a list as they are read back. */
  function TypesReadBack(types: seq<XpType>, beyond: string): Option<seq<XpType>>
    requires types != []
  {
    var last := LastType(types[|types| - 1], beyond);
    if last.Some? then Some(types[..|types| - 1] + [last.value]) else None
  }

  /** What may follow a list in memory without making a difference. */
  predicate EndsList(beyond: string) {
    !HasComma(beyond) || beyond[0] == ','
  }

  /**
   A list, in any order, is read as the set of its types, with the last name taken up to the next comma in memory, and
   refused if that leaves an unknown name or a type twice. So distinct types are read back if and only if what follows
   them is harmless; nothing, or whatever has no comma, is.
   */
  lemma {:induction false} ListRoundTrip(types: seq<XpType>, beyond: string)
    requires types != []
    ensures var read := TypesReadBack(types, beyond);
            TypesFrom(ListText(types) + beyond, |ListText(types)|, {}) ==
            if read.Some? && Distinct(read.value) then AsSet(read.value) else {}
    ensures Distinct(types) ==>
      (TypesFrom(ListText(types) + beyond, |ListText(types)|, {}) == AsSet(types) <==> EndsList(beyond))
    ensures ',' !in beyond ==> EndsList(beyond)
  {
    ListIsRead(types, {}, beyond);
    var read := TypesReadBack(types, beyond);
    if read.Some? {
      if Distinct(read.value) {
        CollectAll(read.value, {});
      } else {
        CollectNone(read.value, {});
      }
    }
    if Distinct(types) {
      EndsListExactly(types, beyond);
    }
  }

  /** Text that is not harmless changes the last type, and with it the set, or leaves a name that is unknown. */
  lemma {:induction false} EndsListExactly(types: seq<XpType>, beyond: string)
    requires types != [] && Distinct(types)
    ensures var read := TypesReadBack(types, beyond);
            (read.Some? && AsSet(read.value) == AsSet(types) <==> EndsList(beyond)) && AsSet(types) != {}
    ensures EndsList(beyond) ==> TypesReadBack(types, beyond) == Some(types)
  {
    var (n, last) := (|types| - 1, LastType(types[|types| - 1], beyond));
    assert types[n] in AsSet(types);
    LastTypeStays(types[n], beyond);
    assert types[..n] + [types[n]] == types;
    if last.Some? && last != Some(types[n]) {
      var read := types[..n] + [last.value];
      forall i | 0 <= i < |read|
        ensures read[i] != types[n]
      {
        assert i < n ==> read[i] == types[i];
      }
    }
  }

  /** What follows a list can change it: here the brackets in front of a comma do. */
  lemma {:induction false} NameRunsOn()
    ensures TypesFrom("int" + "[],", 3, {}) == {IntArray}
  {
    PartEndIs("[]", ",", STOPS);
    assert "[]" + "," == "[]," && "[],"[..2] == "[]" && "int" + "[]" == "int[]";
    LastIsRead(Int, {}, "[],");
    assert [IntArray][1..] == [];
  }

  lemma {:induction false} LastTypeStays(t: XpType, beyond: string)
    ensures LastType(t, beyond) == Some(t) <==> EndsList(beyond)
  {
    NameParses(t);
    PartEndMeans(beyond, STOPS);
    if HasComma(beyond) {
      var name := Name(t) + beyond[..PartEnd(beyond, STOPS)];
      assert PartEnd(beyond, STOPS) == 0 ==> name == Name(t);
    }
  }

  ghost function Collect(types: seq<XpType>, seen: set<XpType>): set<XpType> {
    if types == [] then seen else if types[0] in seen then {} else Collect(types[1..], seen + {types[0]})
  }

  lemma {:induction false} CollectAll(types: seq<XpType>, seen: set<XpType>)
    requires Distinct(types) && forall i :: 0 <= i < |types| ==> types[i] !in seen
    ensures Collect(types, seen) == seen + AsSet(types)
  {
    if types != [] {
      CollectAll(types[1..], seen + {types[0]});
      assert AsSet(types) == {types[0]} + AsSet(types[1..]) by {
        assert forall i :: 0 < i < |types| ==> types[i] == types[1..][i - 1];
      }
    }
  }

  lemma {:induction false} CollectNone(types: seq<XpType>, seen: set<XpType>)
    requires !Distinct(types) || exists i :: 0 <= i < |types| && types[i] in seen
    ensures Collect(types, seen) == {}
  {
    if types != [] && types[0] !in seen {
      var later, more := types[1..], seen + {types[0]};
      if i, j :| 0 <= i < j < |types| && types[i] == types[j] {
        assert later[j - 1] == types[j];
        if i > 0 {
          assert later[i - 1] == types[i];
        }
      } else {
        var i :| 0 <= i < |types| && types[i] in seen;
        assert later[i - 1] in more;
      }
      CollectNone(later, more);
    }
  }

  lemma {:induction false} ListIsRead(types: seq<XpType>, seen: set<XpType>, beyond: string)
    requires types != []
    ensures var read := TypesReadBack(types, beyond);
            TypesFrom(ListText(types) + beyond, |ListText(types)|, seen) ==
            if read.Some? then Collect(read.value, seen) else {}
    decreases |types|
  {
    if |types| == 1 {
      OnlyReadBack(types, beyond);
      LastIsRead(types[0], seen, beyond);
    } else {
      ReadsFirst(types, seen, beyond);
      ListIsRead(types[1..], seen + {types[0]}, beyond);
      FirstReadBack(types, beyond, seen);
    }
  }

  lemma {:induction false} OnlyReadBack(types: seq<XpType>, beyond: string)
    requires |types| == 1
    ensures var last := LastType(types[0], beyond);
            TypesReadBack(types, beyond) == if last.Some? then Some([last.value]) else None
    ensures ListText(types) == Name(types[0])
  {
    var last := LastType(types[0], beyond);
    if last.Some? {
      assert types[..0] + [last.value] == [last.value];
    }
  }

  lemma {:induction false} FirstReadBack(types: seq<XpType>, beyond: string, seen: set<XpType>)
    requires 1 < |types|
    ensures var (read, rest) := (TypesReadBack(types, beyond), TypesReadBack(types[1..], beyond));
            (read.Some? <==> rest.Some?) &&
            (read.Some? ==> Collect(read.value, seen) ==
                            if types[0] in seen then {} else Collect(rest.value, seen + {types[0]}))
  {
    var (read, rest) := (TypesReadBack(types, beyond), TypesReadBack(types[1..], beyond));
    if read.Some? {
      assert read.value[1..] == rest.value;
    }
  }

  lemma {:induction false} ReadsFirst(types: seq<XpType>, seen: set<XpType>, beyond: string)
    requires 1 < |types|
    ensures var rest := ListText(types[1..]);
            TypesFrom(ListText(types) + beyond, |ListText(types)|, seen) ==
            if types[0] in seen then {} else TypesFrom(rest + beyond, |rest|, seen + {types[0]})
  {
    var rest := ListText(types[1..]);
    FirstOfList(types, beyond);
    FirstIsRead(types[0], ListText(types) + beyond, rest + beyond, |rest|, seen);
  }

  lemma {:induction false} FirstOfList(types: seq<XpType>, beyond: string)
    requires 1 < |types|
    ensures ListText(types) + beyond == Name(types[0]) + ("," + (ListText(types[1..]) + beyond))
    ensures |ListText(types)| == |Name(types[0])| + 1 + |ListText(types[1..])|
  {
    Regrouped(Name(types[0]), ",", ListText(types[1..]), beyond);
  }

  lemma {:induction false} Regrouped(a: string, b: string, c: string, d: string)
    ensures a + b + c + d == a + (b + (c + d))
  {
  }

  lemma {:induction false} FirstIsRead(t: XpType, text: string, more: string, count: nat, seen: set<XpType>)
    requires text == Name(t) + ("," + more) && count <= |more|
    ensures TypesFrom(text, |Name(t)| + 1 + count, seen) ==
            if t in seen then {} else TypesFrom(more, count, seen + {t})
  {
    NameParses(t);
    NameIsRead(Name(t), text, more, count, seen);
  }

  lemma {:induction false} NameIsRead(name: string, text: string, more: string, count: nat, seen: set<XpType>)
    requires text == name + ("," + more) && count <= |more| && Without(name, STOPS)
    ensures var t := ParseType(name);
            TypesFrom(text, |name| + 1 + count, seen) ==
            if t.None? || t.value in seen then {} else TypesFrom(more, count, seen + {t.value})
  {
    PartEndIs(name, "," + more, STOPS);
    NameAndMore(name, text, more);
    TypesAfterName(text, name, more, |name| + 1 + count, seen);
  }

  lemma {:induction false} TypesAfterName(text: string, name: string, more: string, count: nat, seen: set<XpType>)
    requires |name| < count <= |text| && PartEnd(text, STOPS) == |name| && text[|name|] == ','
    requires text[..|name|] == name && text[|name| + 1..] == more
    ensures var t := ParseType(name);
            TypesFrom(text, count, seen) ==
            if t.None? || t.value in seen then {} else TypesFrom(more, count - |name| - 1, seen + {t.value})
  {
  }

  lemma {:induction false} NameAndMore(name: string, text: string, more: string)
    requires text == name + ("," + more)
    ensures text[..|name|] == name && text[|name|] == ',' && text[|name| + 1..] == more
  {
  }

  lemma {:induction false} LastIsRead(t: XpType, seen: set<XpType>, beyond: string)
    ensures var last := LastType(t, beyond);
            TypesFrom(Name(t) + beyond, |Name(t)|, seen) == if last.Some? then Collect([last.value], seen) else {}
  {
    var (name, k) := (Name(t), PartEnd(beyond, STOPS));
    NameParses(t);
    PartEndAfter(name, beyond, STOPS);
    assert (name + beyond)[..|name| + k] == name + beyond[..k];
    assert (name + beyond)[..|name|] == name;
  }

  /** The order in which types are listed. */
  const ORDER: seq<XpType> := [Int, Float, Double, IntArray, FloatArray, Blob]

  /** The types of a set among the first `n` in order. */
  function Listed(types: set<XpType>, n: nat): (list: seq<XpType>)
    requires n <= |ORDER|
  {
    if n == 0 then [] else Listed(types, n - 1) + if ORDER[n - 1] in types then [ORDER[n - 1]] else []
  }

  lemma {:induction false} ListedIsSet(types: set<XpType>, n: nat)
    requires n <= |ORDER|
    ensures Distinct(Listed(types, n))
    ensures forall t: XpType :: t in Listed(types, n) <==> t in types && t in ORDER[..n]
  {
    if n > 0 {
      ListedIsSet(types, n - 1);
      var t := ORDER[n - 1];
      assert ORDER[..n] == ORDER[..n - 1] + [t];
      assert t !in ORDER[..n - 1];
    }
  }

  lemma {:induction false} InOrder(t: XpType)
    ensures t in ORDER
  {
    assert ORDER[0] == Int && ORDER[1] == Float && ORDER[2] == Double;
    assert ORDER[3] == IntArray && ORDER[4] == FloatArray && ORDER[5] == Blob;
  }

  /** Every set of types but the empty one survives being listed and read. */
  lemma {:induction false} SetRoundTrip(types: set<XpType>)
    requires types != {}
    ensures var list := Listed(types, |ORDER|);
            list != [] && TypesFrom(ListText(list), |ListText(list)|, {}) == types
  {
    var list := Listed(types, |ORDER|);
    ListedIsSet(types, |ORDER|);
    assert ORDER[..|ORDER|] == ORDER;
    forall t: XpType
      ensures t in list <==> t in types
    {
      InOrder(t);
    }
    var some :| some in types;
    assert some in list;
    ListRoundTrip(list, "");
    assert ListText(list) + "" == ListText(list);
    assert AsSet(list) == types by {
      forall t: XpType
        ensures t in AsSet(list) <==> t in list
      {
      }
    }
  }

  function TextOf(types: seq<XpType>): string {
    if types == [] then "" else ListText(types)
  }

  lemma {:induction false} ListAppend(types: seq<XpType>, t: XpType)
    ensures TextOf(types + [t]) == TextOf(types) + (if types == [] then "" else ",") + Name(t)
  {
    if |types| == 1 {
      assert (types + [t])[1..] == [t] && ListText([t]) == Name(t);
    } else if 1 < |types| {
      ListAppend(types[1..], t);
      assert (types + [t])[1..] == types[1..] + [t];
      assert ListText(types + [t]) == Name(types[0]) + "," + (ListText(types[1..]) + "," + Name(t));
    }
  }

  /** Adds the name of a type to a list if a condition holds. */
  method AddType(condition: bool, t: XpType, before: string, isFirst: bool) returns (out: string, isStillFirst: bool)
    ensures out == if condition then before + (if isFirst then "" else ",") + Name(t) else before
    ensures isStillFirst == (isFirst && !condition)
  {
    out, isStillFirst := before, isFirst;
    if !condition {
      return;
    }
    if isFirst {
      isStillFirst := false;
    } else {
      out := out + ",";
    }
    out := out + Name(t);
  }

  lemma {:induction false} ListNext(types: set<XpType>, n: nat)
    requires n < |ORDER|
    ensures var (list, t) := (Listed(types, n), ORDER[n]);
            TextOf(Listed(types, n + 1)) ==
            if t in types then TextOf(list) + (if list == [] then "" else ",") + Name(t) else TextOf(list)
  {
    ListAppend(Listed(types, n), ORDER[n]);
    assert Listed(types, n) + [] == Listed(types, n);
  }

  /** Lists the types of a set; None if there are none. */
  method EncodeTypes(types: set<XpType>) returns (out: Option<string>)
    ensures out == if types == {} then None else Some(TextOf(Listed(types, |ORDER|)))
  {
    if types == {} {
      return None;
    }
    var text, isFirst := "", true;
    for n := 0 to |ORDER|
      invariant text == TextOf(Listed(types, n)) && isFirst == (Listed(types, n) == [])
    {
      ListNext(types, n);
      text, isFirst := AddType(ORDER[n] in types, ORDER[n], text, isFirst);
    }
    out := Some(text);
  }

  method ParseTypes(s: string, count: int) returns (types: set<XpType>)
    requires count <= |s|
    ensures types == TypesFrom(s, count, {})
  {
    types := {};
    var rest, left := s, count;
    while left > 0
      invariant left <= |rest|
      invariant TypesFrom(rest, left, types) == TypesFrom(s, count, {})
      decreases |rest|
    {
      var separator, found := PartEnd(rest, STOPS), HasComma(rest);
      var t := ParseType(rest[..if found then separator else left]);
      if t.None? || t.value in types {
        return {};
      }
      types := types + {t.value};
      if !found {
        return;
      }
      rest, left := rest[separator + 1..], left - separator - 1;
    }
  }
}
