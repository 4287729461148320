/** `encode_base64` and `decode_base64` of Include/util/string.hpp, section 4 of RFC 4648. Masks and shifts of single
    bytes are written as remainders and quotients. */
module Base64 {
  type Byte = n: nat | n < 256

  type Bytes = seq<Byte>

  type Sextet = n: nat | n < 64

  // ---------------------------------------------------------------- the alphabet

  /** `base64_chars[n]`. */
  function CharOf(n: Sextet): char {
    if n < 26 then ('A' as int + n) as char
    else if n < 52 then ('a' as int + (n - 26)) as char
    else if n < 62 then ('0' as int + (n - 52)) as char
    else if n == 62 then '+' else '/'
  }

  /** `is_base64`. */
  predicate IsBase64(c: char) { 'A' <= c <= 'Z' || 'a' <= c <= 'z' || '0' <= c <= '9' || c == '+' || c == '/' }

  /** `base64_chars.find(c)`, cut to a byte: a character that is not there gives the last byte of `npos`. */
  function Position(c: char): Byte {
    if 'A' <= c <= 'Z' then c as int - 'A' as int
    else if 'a' <= c <= 'z' then 26 + (c as int - 'a' as int)
    else if '0' <= c <= '9' then 52 + (c as int - '0' as int)
    else if c == '+' then 62
    else if c == '/' then 63
    else 255
  }

  lemma AlphabetReadsBack(n: Sextet)
    ensures IsBase64(CharOf(n)) && Position(CharOf(n)) == n && CharOf(n) != '='
  {
  }

  /** The alphabet of section 4 of RFC 4648. */
  const ALPHABET := "ABCDEFGHIJKLM" + "NOPQRSTUVWXYZ" + "abcdefghijklm" + "nopqrstuvwxyz" + "0123456789+/"

  /** The characters are those of the alphabet, in its order, and only those are read. */
  lemma AlphabetIs(n: Sextet, c: char)
    ensures |ALPHABET| == 64 && CharOf(n) == ALPHABET[n]
    ensures IsBase64(c) <==> c in ALPHABET
  {
  }

  // ---------------------------------------------------------------- three bytes, four sextets

  function First(b0: Byte): Sextet { b0 / 4 }

  function Second(b0: Byte, b1: Byte): Sextet { b0 % 4 * 16 + b1 / 16 }

  function Third(b1: Byte, b2: Byte): Sextet { b1 % 16 * 4 + b2 / 64 }

  function Fourth(b2: Byte): Sextet { b2 % 64 }

  /** The bytes the decoder makes of four positions, each cut to eight bits. */
  function Byte0(p0: Byte, p1: Byte): Byte { (p0 * 4 + p1 / 16 % 4) % 256 }

  function Byte1(p1: Byte, p2: Byte): Byte { (p1 % 16 * 16 + p2 / 4 % 16) % 256 }

  function Byte2(p2: Byte, p3: Byte): Byte { (p2 % 4 * 64 + p3) % 256 }

  /** The same 24 bits, cut in three or in four. */
  lemma SameBits(b0: Byte, b1: Byte, b2: Byte)
    ensures 0x1_0000 * b0 + 0x100 * b1 + b2
         == 0x4_0000 * First(b0) + 0x1000 * Second(b0, b1) + 0x40 * Third(b1, b2) + Fourth(b2)
  {
  }

  /** On positions in the alphabet nothing is cut off. */
  lemma NothingCut(p: Sextet, q: Sextet)
    ensures Byte0(p, q) == 4 * p + q / 16 && Byte2(p, q) == 64 * (p % 4) + q
  {
    assert q / 16 < 4;
  }

  lemma MiddleByte(p: Sextet, q: Sextet)
    ensures Byte1(p, q) == 16 * (p % 16) + q / 4
  {
    assert q / 4 < 16;
  }

  /** The decoder's bytes hold the bits of the four positions. */
  lemma PackedBits(p0: Sextet, p1: Sextet, p2: Sextet, p3: Sextet)
    ensures 0x1_0000 * Byte0(p0, p1) + 0x100 * Byte1(p1, p2) + Byte2(p2, p3)
         == 0x4_0000 * p0 + 0x1000 * p1 + 0x40 * p2 + p3
  {
    NothingCut(p0, p1);
    MiddleByte(p1, p2);
    NothingCut(p2, p3);
    hide Byte0, Byte1, Byte2;
  }

  lemma SameBytes(a0: Byte, a1: Byte, a2: Byte, b0: Byte, b1: Byte, b2: Byte)
    requires 0x1_0000 * a0 + 0x100 * a1 + a2 == 0x1_0000 * b0 + 0x100 * b1 + b2
    ensures a0 == b0 && a1 == b1 && a2 == b2
  {
  }

  lemma GroupReadsBack(b0: Byte, b1: Byte, b2: Byte)
    ensures Byte0(First(b0), Second(b0, b1)) == b0
    ensures Byte1(Second(b0, b1), Third(b1, b2)) == b1
    ensures Byte2(Third(b1, b2), Fourth(b2)) == b2
  {
    var p0, p1, p2, p3 := First(b0), Second(b0, b1), Third(b1, b2), Fourth(b2);
    SameBits(b0, b1, b2);
    PackedBits(p0, p1, p2, p3);
    hide First, Second, Third, Fourth, Byte0, Byte1, Byte2;
    SameBytes(Byte0(p0, p1), Byte1(p1, p2), Byte2(p2, p3), b0, b1, b2);
  }

  // ---------------------------------------------------------------- whole texts

  function EncodeGroup(b0: Byte, b1: Byte, b2: Byte): string {
    [CharOf(First(b0)), CharOf(Second(b0, b1)), CharOf(Third(b1, b2)), CharOf(Fourth(b2))]
  }

  /** Three bytes at a time; one or two bytes left over are filled with zeros and marked by `=`. */
  function Encode(x: Bytes): string
    decreases |x|
  {
    if |x| >= 3 then EncodeGroup(x[0], x[1], x[2]) + Encode(x[3..])
    else if |x| == 2 then EncodeGroup(x[0], x[1], 0)[..3] + "="
    else if |x| == 1 then EncodeGroup(x[0], 0, 0)[..2] + "=="
    else ""
  }

  function DecodeGroup(p0: Byte, p1: Byte, p2: Byte, p3: Byte): Bytes { [Byte0(p0, p1), Byte1(p1, p2), Byte2(p2, p3)] }

  /** Letters only: four at a time; letters missing at the end count as positions not found. */
  function DecodeLetters(s: string): Bytes
    decreases |s|
  {
    if |s| >= 4 then
      DecodeGroup(Position(s[0]), Position(s[1]), Position(s[2]), Position(s[3])) + DecodeLetters(s[4..])
    else if |s| == 3 then DecodeGroup(Position(s[0]), Position(s[1]), Position(s[2]), Position('\0'))[..2]
    else if |s| == 2 then DecodeGroup(Position(s[0]), Position(s[1]), Position('\0'), Position('\0'))[..1]
    else []
  }

  /** The letters in front of the first other character. */
  function Letters(s: string): string {
    if s == "" || s[0] == '=' || !IsBase64(s[0]) then "" else [s[0]] + Letters(s[1..])
  }

  function Decode(s: string): Bytes { DecodeLetters(Letters(s)) }

  /** Whatever stands behind the first character that is no letter is not read. */
  lemma {:induction false} StopsAtOther(s: string, c: char, rest: string)
    requires (forall x <- s :: IsBase64(x)) && !IsBase64(c)
    ensures Letters(s + [c] + rest) == s && Decode(s + [c] + rest) == DecodeLetters(s)
    decreases |s|
  {
    hide IsBase64, DecodeLetters;
    assert !IsBase64('=') by { NoFiller(); }
    var d := s + [c] + rest;
    if s != "" {
      assert d[0] == s[0] && d[1..] == s[1..] + [c] + rest && s[0] in s;
      StopsAtOther(s[1..], c, rest);
      assert s == [s[0]] + s[1..];
    }
  }

  lemma NoFiller()
    ensures !IsBase64('=')
  {
  }

  // ---------------------------------------------------------------- round trip

  lemma LettersOfGroup(b0: Byte, b1: Byte, b2: Byte, n: nat, rest: string)
    requires n <= 4
    ensures Letters(EncodeGroup(b0, b1, b2)[..n] + rest) == EncodeGroup(b0, b1, b2)[..n] + Letters(rest)
  {
    LettersInFront(EncodeGroup(b0, b1, b2)[..n], rest) by {
      AlphabetReadsBack(First(b0));
      AlphabetReadsBack(Second(b0, b1));
      AlphabetReadsBack(Third(b1, b2));
      AlphabetReadsBack(Fourth(b2));
      hide CharOf, IsBase64;
    }
  }

  lemma {:induction false} LettersInFront(a: string, rest: string)
    requires forall i :: 0 <= i < |a| ==> a[i] != '=' && IsBase64(a[i])
    ensures Letters(a + rest) == a + Letters(rest)
    decreases |a|
  {
    hide IsBase64;
    if a == "" {
      assert a + rest == rest;
    } else {
      assert (a + rest)[1..] == a[1..] + rest;
      LettersInFront(a[1..], rest);
    }
  }

  lemma GroupDecodes(b0: Byte, b1: Byte, b2: Byte)
    ensures var g := EncodeGroup(b0, b1, b2);
            DecodeGroup(Position(g[0]), Position(g[1]), Position(g[2]), Position(g[3])) == [b0, b1, b2]
  {
    AlphabetReadsBack(First(b0));
    AlphabetReadsBack(Second(b0, b1));
    AlphabetReadsBack(Third(b1, b2));
    AlphabetReadsBack(Fourth(b2));
    GroupReadsBack(b0, b1, b2);
    hide CharOf, Position, First, Second, Third, Fourth, Byte0, Byte1, Byte2;
  }

  /** The position put in for a missing letter never reaches a byte that is kept. */
  lemma FillerIsCutOff(p0: Byte, p1: Byte, p2: Byte, x: Byte, y: Byte)
    ensures DecodeGroup(p0, p1, x, y)[..1] == DecodeGroup(p0, p1, 0, 0)[..1]
    ensures DecodeGroup(p0, p1, p2, y)[..2] == DecodeGroup(p0, p1, p2, 0)[..2]
  {
  }

  /** Decoding undoes encoding, whatever the length. */
  lemma {:induction false} DecodeUndoesEncode(x: Bytes)
    ensures Decode(Encode(x)) == x
    decreases |x|
  {
    hide CharOf, Position, IsBase64, DecodeGroup, EncodeGroup;
    if |x| >= 3 {
      DecodeUndoesEncode(x[3..]);
      GroupFront(x[0], x[1], x[2], Encode(x[3..]));
      assert [x[0], x[1], x[2]] + x[3..] == x;
    } else if |x| == 2 {
      TwoLeft(x[0], x[1]);
      assert x == [x[0], x[1]];
    } else if |x| == 1 {
      OneLeft(x[0]);
      assert x == [x[0]];
    }
  }

  lemma GroupFront(b0: Byte, b1: Byte, b2: Byte, rest: string)
    ensures Decode(EncodeGroup(b0, b1, b2) + rest) == [b0, b1, b2] + Decode(rest)
  {
    var g := EncodeGroup(b0, b1, b2);
    GroupDecodes(b0, b1, b2);
    LettersOfGroup(b0, b1, b2, 4, rest);
    hide EncodeGroup, DecodeGroup, Position, Letters;
    assert g[..4] == g by { GroupLength(b0, b1, b2); }
    var t := g + Letters(rest);
    assert t[4..] == Letters(rest) && t[0] == g[0] && t[1] == g[1] && t[2] == g[2] && t[3] == g[3];
  }

  lemma GroupLength(b0: Byte, b1: Byte, b2: Byte)
    ensures |EncodeGroup(b0, b1, b2)| == 4
  {
  }

  lemma TwoLeft(b0: Byte, b1: Byte)
    ensures Decode(EncodeGroup(b0, b1, 0)[..3] + "=") == [b0, b1]
  {
    var g := EncodeGroup(b0, b1, 0);
    GroupDecodes(b0, b1, 0);
    LettersOfGroup(b0, b1, 0, 3, "=");
    FillerIsCutOff(Position(g[0]), Position(g[1]), Position(g[2]), 0, Position('\0'));
    FillerIsCutOff(Position(g[0]), Position(g[1]), Position(g[2]), 0, Position(g[3]));
    GroupLength(b0, b1, 0);
    hide EncodeGroup, DecodeGroup, Position;
    assert Letters("=") == "" && g[..3] + "" == g[..3];
    assert [b0, b1, 0 as Byte][..2] == [b0, b1];
  }

  lemma OneLeft(b0: Byte)
    ensures Decode(EncodeGroup(b0, 0, 0)[..2] + "==") == [b0]
  {
    var g := EncodeGroup(b0, 0, 0);
    GroupDecodes(b0, 0, 0);
    LettersOfGroup(b0, 0, 0, 2, "==");
    FillerIsCutOff(Position(g[0]), Position(g[1]), 0, Position('\0'), Position('\0'));
    FillerIsCutOff(Position(g[0]), Position(g[1]), 0, Position(g[2]), Position(g[3]));
    GroupLength(b0, 0, 0);
    hide EncodeGroup, DecodeGroup, Position;
    assert Letters("==") == "" && g[..2] + "" == g[..2];
    assert [b0, 0, 0 as Byte][..1] == [b0];
  }

  /** Four characters for every three bytes begun. */
  lemma {:induction false} EncodedLength(x: Bytes)
    ensures |Encode(x)| == 4 * ((|x| + 2) / 3)
    decreases |x|
  {
    hide EncodeGroup;
    if |x| >= 3 {
      EncodedLength(x[3..]);
      GroupLength(x[0], x[1], x[2]);
    } else if |x| == 2 {
      GroupLength(x[0], x[1], 0);
    } else if |x| == 1 {
      GroupLength(x[0], 0, 0);
    }
  }

  /** Three bytes for every four letters in front, and what full bytes the letters left over hold. */
  lemma {:induction false} DecodedLength(s: string)
    ensures |DecodeLetters(s)| == |s| / 4 * 3 + (if |s| % 4 == 0 then 0 else |s| % 4 - 1)
    decreases |s|
  {
    hide Byte0, Byte1, Byte2, Position;
    if |s| >= 4 {
      DecodedLength(s[4..]);
      assert |s| / 4 == 1 + |s[4..]| / 4 && |s| % 4 == |s[4..]| % 4;
    }
  }

  // ---------------------------------------------------------------- the loops

  /** Appends the first `n` characters for the sextets in the array. */
  method AppendChars(ret: string, sextets: array<Sextet>, n: nat) returns (r: string)
    requires sextets.Length == 4 && n <= 4
    ensures r == ret + [CharOf(sextets[0]), CharOf(sextets[1]), CharOf(sextets[2]), CharOf(sextets[3])][..n]
  {
    hide CharOf;
    ghost var all := [CharOf(sextets[0]), CharOf(sextets[1]), CharOf(sextets[2]), CharOf(sextets[3])];
    r := ret;
    for j := 0 to n
      invariant r == ret + all[..j]
    {
      r := r + [CharOf(sextets[j])];
      assert all[..j + 1] == all[..j] + [all[j]];
    }
  }

  /** Cuts three bytes into four sextets. */
  method CutGroup(three: array<Byte>, four: array<Sextet>)
    requires three.Length == 3 && four.Length == 4
    modifies four
    ensures [CharOf(four[0]), CharOf(four[1]), CharOf(four[2]), CharOf(four[3])]
         == EncodeGroup(three[0], three[1], three[2])
  {
    four[0] := First(three[0]);
    four[1] := Second(three[0], three[1]);
    four[2] := Third(three[1], three[2]);
    four[3] := Fourth(three[2]);
  }

  /** The end of `encode_base64`: one or two bytes left over. */
  method EncodeRest(front: string, three: array<Byte>, four: array<Sextet>, count: nat) returns (ret: string)
    requires three.Length == 3 && four.Length == 4 && 0 < count < 3
    modifies three, four
    ensures ret == front + Encode(old(three[..count]))
  {
    hide EncodeGroup, CharOf;
    ghost var left := three[..count];
    for j := count to 3
      invariant three[..count] == left && forall k :: count <= k < j ==> three[k] == 0
    {
      three[j] := 0;
    }
    CutGroup(three, four);
    ret := AppendChars(front, four, count + 1);
    assert three[0] == left[0] && (count == 2 ==> three[1] == left[1]);
    ghost var before := ret;
    var i := count;
    while i < 3
      invariant count <= i <= 3 && ret == before + ("==")[..i - count]
    {
      ret := ret + "=";
      i := i + 1;
    }
    assert ("==")[..3 - count] == if count == 1 then "==" else "=";
  }

  /** `encode_base64`. */
  method EncodeText(data: Bytes) returns (ret: string)
    ensures ret == Encode(data)
  {
    hide Encode, EncodeGroup, CharOf;
    var three, four := new Byte[3], new Sextet[4];
    ret := "";
    var i, pos := 0, 0;
    assert data[0..] == data;
    while pos < |data|
      invariant i <= pos <= |data| && i < 3 && three[..i] == data[pos - i..pos]
      invariant ret + Encode(data[pos - i..]) == Encode(data)
    {
      three[i] := data[pos];
      i, pos := i + 1, pos + 1;
      assert three[..i] == data[pos - i..pos];
      if i == 3 {
        GroupStep(data, pos - 3);
        assert three[0] == three[..3][0] && three[1] == three[..3][1] && three[2] == three[..3][2];
        CutGroup(three, four);
        ret := AppendChars(ret, four, 4);
        i := 0;
      }
    }
    if i > 0 {
      assert data[pos - i..] == three[..i];
      ret := EncodeRest(ret, three, four, i);
    } else {
      NothingLeft(data);
    }
  }

  lemma NothingLeft(data: Bytes)
    ensures Encode(data[|data|..]) == ""
  {
  }

  lemma GroupStep(data: Bytes, p: nat)
    requires p + 3 <= |data|
    ensures Encode(data[p..]) == EncodeGroup(data[p], data[p + 1], data[p + 2])[..4] + Encode(data[p + 3..])
    ensures data[p..p + 3] == [data[p], data[p + 1], data[p + 2]]
  {
    GroupLength(data[p], data[p + 1], data[p + 2]);
    hide EncodeGroup;
    assert data[p..][3..] == data[p + 3..];
  }

  /** Looks the four characters up and packs them. */
  method PackGroup(letters: array<char>, three: array<Byte>)
    requires letters.Length == 4 && three.Length == 3
    modifies three
    ensures three[..] ==
      DecodeGroup(Position(letters[0]), Position(letters[1]), Position(letters[2]), Position(letters[3]))
  {
    hide Position, Byte0, Byte1, Byte2;
    var four := new Byte[4];
    for i := 0 to 4
      invariant forall k :: 0 <= k < i ==> four[k] == Position(letters[k])
      modifies four
    {
      four[i] := Position(letters[i]);
    }
    three[0] := Byte0(four[0], four[1]);
    three[1] := Byte1(four[1], four[2]);
    three[2] := Byte2(four[2], four[3]);
  }

  method AppendBytes(ret: Bytes, three: array<Byte>, n: nat) returns (r: Bytes)
    requires three.Length == 3 && n <= 3
    ensures r == ret + three[..n]
  {
    r := ret;
    for i := 0 to n
      invariant r == ret + three[..i]
    {
      r := r + [three[i]];
      assert three[..i + 1] == three[..i] + [three[i]];
    }
  }

  /** `decode_base64`: reads up to the first character that is not in the alphabet. */
  method DecodeText(data: string) returns (ret: Bytes)
    ensures ret == Decode(data)
  {
    hide DecodeLetters, DecodeGroup, Position, Letters, IsBase64;
    var letters, three := new char[4], new Byte[3];
    ret := [];
    var i, pos := 0, 0;
    assert data[0..] == data && letters[..0] + Letters(data) == Letters(data);
    while pos < |data| && data[pos] != '=' && IsBase64(data[pos])
      invariant pos <= |data| && i < 4
      invariant ret + DecodeLetters(letters[..i] + Letters(data[pos..])) == Decode(data)
    {
      ghost var before := letters[..i];
      NextLetter(data, pos);
      letters[i] := data[pos];
      i, pos := i + 1, pos + 1;
      assert letters[..i] == before + [data[pos - 1]];
      assert letters[..i] + Letters(data[pos..]) == before + ([data[pos - 1]] + Letters(data[pos..]));
      if i == 4 {
        FourLetters(letters[..], Letters(data[pos..]));
        assert letters[..4] == letters[..];
        PackGroup(letters, three);
        ret := AppendBytes(ret, three, 3);
        assert three[..3] == three[..];
        i := 0;
        assert letters[..0] + Letters(data[pos..]) == Letters(data[pos..]);
      }
    }
    NoLetter(data, pos);
    assert letters[..i] + "" == letters[..i];
    ret := DecodeRest(ret, letters, three, i);
  }

  /** The end of `decode_base64`: fewer than four letters left over. */
  method DecodeRest(front: Bytes, letters: array<char>, three: array<Byte>, count: nat) returns (ret: Bytes)
    requires letters.Length == 4 && three.Length == 3 && count < 4
    modifies letters, three
    ensures ret == front + DecodeLetters(old(letters[..count]))
  {
    hide DecodeGroup, Position;
    ret := front;
    ghost var left := letters[..count];
    if count > 0 {
      for j := count to 4
        invariant letters[..count] == left && forall k :: count <= k < j ==> letters[k] == '\0'
        modifies letters
      {
        letters[j] := '\0';
      }
      PackGroup(letters, three);
      ret := AppendBytes(ret, three, count - 1);
      assert forall k :: 0 <= k < count ==> letters[k] == left[k];
      LettersLeft(left);
      assert three[..count - 1] == three[..][..count - 1];
    }
  }

  lemma LettersLeft(s: string)
    requires 0 < |s| < 4
    ensures DecodeLetters(s) ==
      DecodeGroup(Position(s[0]), Position(if |s| > 1 then s[1] else '\0'), Position(if |s| > 2 then s[2] else '\0'),
                  Position('\0'))[..|s| - 1]
  {
    hide Position, Byte0, Byte1, Byte2;
  }

  lemma NextLetter(data: string, pos: nat)
    requires pos < |data| && data[pos] != '=' && IsBase64(data[pos])
    ensures Letters(data[pos..]) == [data[pos]] + Letters(data[pos + 1..])
  {
    hide IsBase64;
    assert data[pos..][1..] == data[pos + 1..];
  }

  lemma NoLetter(data: string, pos: nat)
    requires pos <= |data| && (pos == |data| || data[pos] == '=' || !IsBase64(data[pos]))
    ensures Letters(data[pos..]) == ""
  {
    hide IsBase64;
  }

  lemma FourLetters(s: string, rest: string)
    requires |s| == 4
    ensures DecodeLetters(s + rest)
         == DecodeGroup(Position(s[0]), Position(s[1]), Position(s[2]), Position(s[3])) + DecodeLetters(rest)
  {
    hide DecodeGroup, Position;
    assert (s + rest)[4..] == rest;
  }
}
