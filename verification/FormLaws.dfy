/** What url_unquote() makes of single characters and escapes, with their codes written out. */
module FormLaws {
  import opened Options
  import opened CStrings
  import opened Forms
  import Chunks
  import ChunkLaws

  /** A percent sign (37) and two hex digits of either case stand for the byte with that number. */
  lemma EscapeIsRead(b: byte, hi: byte, lo: byte, rest: seq<byte>)
    requires b > 0
    requires hi == ChunkLaws.LOWER[b / 16] || hi == ChunkLaws.UPPER[b / 16]
    requires lo == ChunkLaws.LOWER[b % 16] || lo == ChunkLaws.UPPER[b % 16]
    ensures Unquoting([37, hi, lo] + rest) == Put([b], Unquoting(rest))
  {
    DigitsHold(b, hi, lo);
    TwoDigits(hi, lo);
    EscapeStep(hi, lo, b, rest);
  }

  lemma DigitsHold(b: byte, hi: byte, lo: byte)
    requires hi == ChunkLaws.LOWER[b / 16] || hi == ChunkLaws.UPPER[b / 16]
    requires lo == ChunkLaws.LOWER[b % 16] || lo == ChunkLaws.UPPER[b % 16]
    ensures Chunks.IsHex(hi) && Chunks.IsHex(lo) && 16 * Chunks.Nibble(hi) + Chunks.Nibble(lo) == b
  {
    ChunkLaws.DigitsAre(b / 16, hi);
    ChunkLaws.DigitsAre(b % 16, lo);
    hide Chunks.Nibble, Chunks.IsHex;
  }

  lemma EscapeStep(hi: byte, lo: byte, b: byte, rest: seq<byte>)
    requires HexByte(hi, lo) == Some(b)
    ensures Unquoting([37, hi, lo] + rest) == Put([b], Unquoting(rest))
  {
    var s := [37, hi, lo] + rest;
    assert s[0] == 37 && s[1] == hi && s[2] == lo && s[3..] == rest;
    hide HexByte;
  }

  /** A plus (43) stands for a space (32), and any other character but the percent sign for itself. */
  lemma CharacterIsRead(c: byte, rest: seq<byte>)
    requires c != 37
    ensures Unquoting([c] + rest) == Put([if c == 43 then 32 else c], Unquoting(rest))
  {
    assert ([c] + rest)[1..] == rest;
  }

  /** A percent sign with fewer than two characters behind it ends the string, and is reported. */
  lemma CutEscapeIsRefused(rest: seq<byte>)
    requires |rest| < 2
    ensures Unquoting([37] + rest) == Unquoted(false, [])
  {
  }

  /** So does one with something that is not a number, or is nought. */
  lemma BadEscapeIsRefused(a: byte, b: byte, rest: seq<byte>)
    requires (a !in ChunkLaws.LOWER && a !in ChunkLaws.UPPER && a !in {43, 45} && !(a == 32 || 9 <= a <= 13))
      || (a == 48 && b == 48)
    ensures Unquoting([37, a, b] + rest) == Unquoted(false, [])
  {
    if a == 48 && b == 48 {
      ValueOfTwo(48, 48);
      Chunks.ScanDigits([48, 48]);
    } else {
      ChunkLaws.DigitsAre(0, a);
      NoNumber(a, b);
    }
    EscapeFails(a, b, rest);
  }

  lemma NoNumber(a: byte, b: byte)
    requires !Chunks.IsHex(a) && !Chunks.IsSpace(a) && a != 43 && a != 45
    ensures HexByte(a, b) == None
  {
  }

  lemma EscapeFails(a: byte, b: byte, rest: seq<byte>)
    requires HexByte(a, b) == None
    ensures Unquoting([37, a, b] + rest) == Unquoted(false, [])
  {
    var s := [37, a, b] + rest;
    assert s[0] == 37 && s[1] == a && s[2] == b;
    hide HexByte;
  }

  // ----- Items -----

  /** A name, an equals sign (61) and a value, and behind an ampersand (38) the other items. */
  lemma PairIsRead(name: seq<byte>, value: seq<byte>, rest: seq<byte>)
    requires 38 !in name && 61 !in name && 38 !in value
    ensures Items(name + ([61] + (value + ([38] + rest)))) == [Clean(Item(name, Some(value)))] + Items(rest)
    ensures Items(name + ([61] + value)) == [Clean(Item(name, Some(value)))]
  {
    hide SplitItem, Clean;
    assert value + [] == value;
    ValueJoined(name, value, Some(rest));
    ValueJoined(name, value, None);
  }

  /** A name without a value. */
  lemma NameIsRead(name: seq<byte>, rest: seq<byte>)
    requires 38 !in name && 61 !in name
    ensures Items(name + ([38] + rest)) == [Clean(Item(name, None))] + Items(rest)
    ensures Items(name) == if name == [] then [] else [Clean(Item(name, None))]
  {
    hide SplitItem, Clean;
    assert name + [] == name;
    NameJoined(name, Some(rest));
    NameJoined(name, None);
  }

  /** Names and values are unquoted; what stands behind a bad escape is left as it lies in the buffer. */
  lemma CleanIs(item: Item)
    ensures Unquoting(item.name).ok ==> Clean(item).name == Unquoting(item.name).out
    ensures Clean(item).value.Some? <==> item.value.Some?
    ensures item.value.Some? && Unquoting(item.value.value).ok ==>
      Clean(item).value.value == Unquoting(item.value.value).out
  {
    hide Unquoting;
  }
}
