/** Channel IDs: four alphanumeric characters on the wire, packed to 24 bits internally, 6 bits each. */
module ChannelIds {

  const BAD_CHANNEL_ID: nat := 0xFFFF_FFFF
  const BAD_SEGMENT: nat := 0xFF
  const ID_LENGTH: nat := 4

  function CharToSegment(ch: char): (segment: nat)
    ensures segment < 62 || segment == BAD_SEGMENT
  {
    if 'a' <= ch <= 'z' then (ch - 'a') as int
    else if 'A' <= ch <= 'Z' then (ch - 'A') as int + 26
    else if '0' <= ch <= '9' then (ch - '0') as int + 52
    else BAD_SEGMENT
  }

  function SegmentToChar(segment: nat): (ch: char)
    ensures segment < 62 ==> CharToSegment(ch) == segment
    ensures segment >= 62 ==> ch == '_'
  {
    if segment < 26 then 'a' + segment as char
    else if segment < 52 then 'A' + (segment - 26) as char
    else if segment < 62 then '0' + (segment - 52) as char
    else '_'
  }

  predicate IsIdChar(ch: char) {
    CharToSegment(ch) != BAD_SEGMENT
  }

  /** Four characters that name a channel. */
  predicate IsName(name: string) {
    |name| == ID_LENGTH && forall i :: 0 <= i < ID_LENGTH ==> IsIdChar(name[i])
  }

  /** An ID all of whose four segments stand for a character. */
  predicate IsId(id: nat) {
    id < 0x100_0000 && id % 64 < 62 && id / 64 % 64 < 62 && id / 4096 % 64 < 62 && id / 262144 < 62
  }

  function IdOf(name: string): (id: nat)
    requires |name| == ID_LENGTH
  {
    if IsName(name) then
      Pack(CharToSegment(name[0]), CharToSegment(name[1]), CharToSegment(name[2]), CharToSegment(name[3]))
    else BAD_CHANNEL_ID
  }

  function NameOf(id: nat): (name: string)
    ensures |name| == ID_LENGTH
  {
    [SegmentToChar(id / 262144 % 64), SegmentToChar(id / 4096 % 64),
     SegmentToChar(id / 64 % 64), SegmentToChar(id % 64)]
  }

  lemma {:induction false} CharIsSegment(ch: char)
    requires IsIdChar(ch)
    ensures SegmentToChar(CharToSegment(ch)) == ch
  {
  }

  function Pack(a: nat, b: nat, c: nat, d: nat): (id: nat) {
    ((a * 64 + b) * 64 + c) * 64 + d
  }

  lemma {:induction false} PackedSegments(a: nat, b: nat, c: nat, d: nat)
    requires a < 64 && b < 64 && c < 64 && d < 64
    ensures Pack(a, b, c, d) % 64 == d && Pack(a, b, c, d) / 64 % 64 == c
    ensures Pack(a, b, c, d) / 4096 % 64 == b && Pack(a, b, c, d) / 262144 == a
  {
  }

  lemma {:induction false} SegmentsPack(id: nat)
    ensures id == Pack(id / 262144, id / 4096 % 64, id / 64 % 64, id % 64)
  {
    Quotients(id);
    assert id / 64 == id / 64 / 64 * 64 + id / 64 % 64;
    assert id / 4096 == id / 4096 / 64 * 64 + id / 4096 % 64;
  }

  lemma {:induction false} Quotients(id: nat)
    ensures id / 64 / 64 == id / 4096 && id / 4096 / 64 == id / 262144
  {
  }

  /** Names and IDs stand for each other, one to one; everything else that is parsed is refused. */
  lemma {:induction false} NameOfIdOf(name: string)
    requires |name| == ID_LENGTH
    ensures IsName(name) ==> IsId(IdOf(name)) && NameOf(IdOf(name)) == name
    ensures !IsName(name) ==> IdOf(name) == BAD_CHANNEL_ID && !IsId(BAD_CHANNEL_ID)
  {
    if IsName(name) {
      CharIsSegment(name[0]);
      CharIsSegment(name[1]);
      CharIsSegment(name[2]);
      CharIsSegment(name[3]);
      NameOfPacked(CharToSegment(name[0]), CharToSegment(name[1]), CharToSegment(name[2]), CharToSegment(name[3]));
    }
  }

  lemma {:induction false} NameOfPacked(a: nat, b: nat, c: nat, d: nat)
    requires a < 62 && b < 62 && c < 62 && d < 62
    ensures IsId(Pack(a, b, c, d))
    ensures NameOf(Pack(a, b, c, d)) == [SegmentToChar(a), SegmentToChar(b), SegmentToChar(c), SegmentToChar(d)]
  {
    PackedSegments(a, b, c, d);
  }

  lemma {:induction false} IdOfNameOf(id: nat)
    requires IsId(id)
    ensures IsName(NameOf(id)) && IdOf(NameOf(id)) == id
  {
    var name := NameOf(id);
    assert CharToSegment(name[0]) == id / 262144 && CharToSegment(name[1]) == id / 4096 % 64;
    assert CharToSegment(name[2]) == id / 64 % 64 && CharToSegment(name[3]) == id % 64;
    SegmentsPack(id);
  }

  /** Reads the channel ID at the start of a string. */
  method StringToChannelId(s: string) returns (id: nat)
    requires ID_LENGTH <= |s|
    ensures id == IdOf(s[..ID_LENGTH])
  {
    id := 0;
    for i := 0 to ID_LENGTH
      invariant forall k :: 0 <= k < i ==> IsIdChar(s[k])
      invariant i == 0 ==> id == 0
      invariant i == 1 ==> id == CharToSegment(s[0])
      invariant i == 2 ==> id == CharToSegment(s[0]) * 64 + CharToSegment(s[1])
      invariant i == 3 ==> id == (CharToSegment(s[0]) * 64 + CharToSegment(s[1])) * 64 + CharToSegment(s[2])
      invariant i == 4 ==> id == IdOf(s[..ID_LENGTH])
    {
      var segment := CharToSegment(s[i]);
      if segment == BAD_SEGMENT {
        assert !IsIdChar(s[..ID_LENGTH][i]);
        return BAD_CHANNEL_ID;
      }
      id := id * 64 + segment;
    }
  }

  /** Writes the four characters of an ID, last one first. */
  method ChannelIdToString(id: nat, destination: array<char>)
    requires ID_LENGTH <= destination.Length
    modifies destination
    ensures destination[..ID_LENGTH] == NameOf(id) && destination[ID_LENGTH..] == old(destination[ID_LENGTH..])
  {
    Quotients(id);
    var rest := id;
    destination[3] := SegmentToChar(rest % 64);
    rest := rest / 64;
    destination[2] := SegmentToChar(rest % 64);
    rest := rest / 64;
    destination[1] := SegmentToChar(rest % 64);
    rest := rest / 64;
    destination[0] := SegmentToChar(rest % 64);
  }
}
