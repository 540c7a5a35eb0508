/** The hand-written base64url codec: URL-safe alphabet, no padding (sections 3.2 and 5 of
    RFC 4648). */
module Base64Url {
  import opened Basics

  type Bytes = seq<bv8>

  const UPPER: string := "ABCDEFGHIJKLMNOPQRSTUVWXYZ"
  const LOWER: string := "abcdefghijklmnopqrstuvwxyz"
  const SIGNS: string := "0123456789-_"
  const TABLE: string := UPPER + LOWER + SIGNS

  // ---------- the alphabet ----------

  /** Position of the first occurrence, if any. */
  function Position(table: string, c: char): Option<nat> {
    if table == "" then None
    else if table[0] == c then Some(0)
    else match Position(table[1..], c) case Some(i) => Some(i + 1) case None => None
  }

  lemma {:induction false} PositionIs(table: string, i: nat)
    requires i < |table| && forall j :: 0 <= j < i ==> table[j] != table[i]
    ensures Position(table, table[i]) == Some(i)
  {
    if 0 < i {
      PositionIs(table[1..], i - 1);
    }
  }

  lemma {:induction false} PositionInTable(table: string, c: char)
    ensures match Position(table, c) case Some(i) => i < |table| && table[i] == c case None => c !in table
  {
    if table != "" && table[0] != c {
      PositionInTable(table[1..], c);
    }
  }

  /** Where a character of the alphabet stands, by its code. */
  function Rank(c: char): int {
    if 'A' <= c <= 'Z' then c as int - 'A' as int
    else if 'a' <= c <= 'z' then c as int - 'a' as int + 26
    else if '0' <= c <= '9' then c as int - '0' as int + 52
    else if c == '-' then 62
    else 63
  }

  lemma {:induction false} UpperAlphabet(i: nat)
    requires i < 26
    ensures |UPPER| == 26 && Rank(UPPER[i]) == i
  {}

  lemma {:induction false} LowerAlphabet(i: nat)
    requires i < 26
    ensures |LOWER| == 26 && Rank(LOWER[i]) == i + 26
  {}

  lemma {:induction false} SignAlphabet(i: nat)
    requires i < 12
    ensures |SIGNS| == 12 && Rank(SIGNS[i]) == i + 52
  {}

  lemma {:induction false} Alphabet(i: nat)
    requires i < 64
    ensures |TABLE| == 64 && Rank(TABLE[i]) == i
  {
    UpperAlphabet(0);
    LowerAlphabet(0);
    SignAlphabet(0);
    if i < 26 {
      UpperAlphabet(i);
    } else if i < 52 {
      LowerAlphabet(i - 26);
    } else {
      SignAlphabet(i - 52);
    }
  }

  lemma {:induction false} CharBack(i: nat)
    requires i < 64
    ensures |TABLE| == 64 && Position(TABLE, TABLE[i]) == Some(i)
    ensures TABLE[i] != '=' && (TABLE[i] == '-' <==> i == 62)
  {
    forall j | 0 <= j < 64 ensures |TABLE| == 64 && Rank(TABLE[j]) == j {
      Alphabet(j);
    }
    PositionIs(TABLE, i);
  }

  /** Six bits and back. */
  function Show(v: bv8): (c: char)
    requires v < 64
  {
    Alphabet(v as nat);
    TABLE[v as nat]
  }

  /** A padding sign reads as zero bits; a character outside the alphabet does not read. */
  function Read(c: char): (v: Option<bv8>)
    ensures v.Some? ==> v.value < 64
  {
    if c == '=' then Some(0)
    else
      match Position(TABLE, c)
      case None => None
      case Some(i) =>
        Alphabet(0);
        PositionInTable(TABLE, c);
        Some(i as bv8)
  }

  lemma {:induction false} ReadShow(v: bv8)
    requires v < 64
    ensures Read(Show(v)) == Some(v)
    ensures Show(v) == '-' <==> v == 62
    ensures Show(v) in TABLE && Show(v) != '='
  {
    Alphabet(v as nat);
    CharBack(v as nat);
  }

  // ---------- bits ----------

  function S0(b0: bv8): bv8 { b0 >> 2 }
  function S1(b0: bv8, b1: bv8): bv8 { ((b0 & 0x03) << 4) | (b1 >> 4) }
  function S2(b1: bv8, b2: bv8): bv8 { ((b1 & 0x0f) << 2) | (b2 >> 6) }
  function S3(b2: bv8): bv8 { b2 & 0x3f }

  function B0(s0: bv8, s1: bv8): bv8 { (s0 << 2) | (s1 >> 4) }
  function B1(s1: bv8, s2: bv8): bv8 { (s1 << 4) | (s2 >> 2) }
  function B2(s2: bv8, s3: bv8): bv8 { (s2 << 6) | s3 }

  lemma {:induction false} BitsBack(b0: bv8, b1: bv8, b2: bv8)
    ensures S0(b0) < 64 && S1(b0, b1) < 64 && S2(b1, b2) < 64 && S3(b2) < 64
    ensures B0(S0(b0), S1(b0, b1)) == b0
    ensures B1(S1(b0, b1), S2(b1, b2)) == b1
    ensures B2(S2(b1, b2), S3(b2)) == b2
  {}

  // ---------- the codec, group by group ----------

  /** At most three bytes, as two, three or four characters. */
  function EncodeGroup(group: Bytes): (out: string)
    requires 1 <= |group| <= 3
  {
    var b0 := group[0];
    var b1 := if |group| > 1 then group[1] else 0;
    var b2 := if |group| > 2 then group[2] else 0;
    BitsBack(b0, b1, b2);
    [Show(S0(b0)), Show(S1(b0, b1))]
    + (if |group| > 1 then [Show(S2(b1, b2))] else [])
    + (if |group| > 2 then [Show(S3(b2))] else [])
  }

  function Encoded(input: Bytes): string {
    if input == [] then ""
    else
      var n := Min(3, |input|);
      EncodeGroup(input[..n]) + Encoded(input[n..])
  }

  /** At most four characters, as one to three bytes: a group of one still yields a byte. */
  function DecodeGroup(group: string): Option<Bytes>
    requires 1 <= |group| <= 4
  {
    var v0 := Read(group[0]);
    var v1 := if |group| > 1 then Read(group[1]) else Some(0);
    var v2 := if |group| > 2 then Read(group[2]) else Some(0);
    var v3 := if |group| > 3 then Read(group[3]) else Some(0);
    if v0.None? || v1.None? || v2.None? || v3.None? then None
    else
      Some([B0(v0.value, v1.value)]
           + (if |group| > 2 then [B1(v1.value, v2.value)] else [])
           + (if |group| > 3 then [B2(v2.value, v3.value)] else []))
  }

  function Prepend(front: Bytes, rest: Option<Bytes>): Option<Bytes> {
    match rest case None => None case Some(bytes) => Some(front + bytes)
  }

  function Decoded(input: string): Option<Bytes> {
    if input == "" then Some([])
    else
      var n := Min(4, |input|);
      match DecodeGroup(input[..n])
      case None => None
      case Some(front) => Prepend(front, Decoded(input[n..]))
  }

  lemma {:induction false} PrependTwice(a: Bytes, b: Bytes, rest: Option<Bytes>)
    ensures Prepend(a, Prepend(b, rest)) == Prepend(a + b, rest)
    ensures Prepend([], rest) == rest
    ensures Prepend(a, Some([])) == Some(a)
  {
    assert a + [] == a;
    if rest.Some? {
      assert a + (b + rest.value) == a + b + rest.value && [] + rest.value == rest.value;
    }
  }

  lemma {:induction false} Joins(a: string, b: string, c: string)
    ensures a + (b + c) == (a + b) + c
  {}

  method EncodeChunk(group: Bytes) returns (out: string)
    requires 1 <= |group| <= 3
    ensures out == EncodeGroup(group)
  {
    var b0 := group[0];
    var b1 := if |group| > 1 then group[1] else 0;
    var b2 := if |group| > 2 then group[2] else 0;
    BitsBack(b0, b1, b2);
    out := [Show(b0 >> 2)];
    out := out + [Show(((b0 & 0x03) << 4) | (b1 >> 4))];
    assert out == [Show(S0(b0)), Show(S1(b0, b1))];
    ghost var two := out;
    if |group| > 1 {
      out := out + [Show(((b1 & 0x0f) << 2) | (b2 >> 6))];
    }
    assert out == two + if |group| > 1 then [Show(S2(b1, b2))] else [];
    ghost var three := out;
    if |group| > 2 {
      out := out + [Show(b2 & 0x3f)];
    }
    assert out == three + if |group| > 2 then [Show(S3(b2))] else [];
  }

  method B64UrlEncode(input: Bytes) returns (out: string)
    ensures out == Encoded(input)
  {
    out := "";
    var i := 0;
    Joins("", "", Encoded(input));
    assert input[0..] == input;
    while i < |input|
      invariant 0 <= i <= |input|
      invariant out + Encoded(input[i..]) == Encoded(input)
    {
      var n := Min(3, |input| - i);
      var chars := EncodeChunk(input[i..i + n]);
      assert input[i..][..n] == input[i..i + n] && input[i..][n..] == input[i + n..];
      Joins(out, chars, Encoded(input[i + n..]));
      out := out + chars;
      i := i + n;
    }
  }

  lemma {:induction false} BadCharacter(group: string, i: nat)
    requires i < |group| <= 4 && Read(group[i]).None?
    ensures DecodeGroup(group).None?
  {
    assert i == 0 || i == 1 || i == 2 || i == 3;
  }

  method DecodeChunk(group: string) returns (out: Option<Bytes>)
    requires 1 <= |group| <= 4
    ensures out == DecodeGroup(group)
  {
    var chunk: Bytes := [0, 0, 0, 0];
    for i := 0 to 4
      invariant |chunk| == 4
      invariant forall j :: 0 <= j < i ==> Some(chunk[j]) == if j < |group| then Read(group[j]) else Some(0)
    {
      var v := if i < |group| then Read(group[i]) else Some(0);
      if v.None? {
        BadCharacter(group, i);
        return None;
      }
      chunk := chunk[i := v.value];
    }
    assert Some(chunk[0]) == Read(group[0]);
    assert Some(chunk[1]) == if |group| > 1 then Read(group[1]) else Some(0);
    assert Some(chunk[2]) == if |group| > 2 then Read(group[2]) else Some(0);
    assert Some(chunk[3]) == if |group| > 3 then Read(group[3]) else Some(0);
    var buf := [(chunk[0] << 2) | (chunk[1] >> 4)];
    if |group| > 2 {
      buf := buf + [(chunk[1] << 4) | (chunk[2] >> 2)];
    }
    if |group| > 3 {
      buf := buf + [(chunk[2] << 6) | chunk[3]];
    }
    assert buf == [B0(chunk[0], chunk[1])]
                  + (if |group| > 2 then [B1(chunk[1], chunk[2])] else [])
                  + (if |group| > 3 then [B2(chunk[2], chunk[3])] else []);
    return Some(buf);
  }

  /** Decode, and give up unless the bytes are text. */
  method B64UrlDecode(input: string, isText: Bytes -> bool) returns (out: Option<Bytes>)
    ensures out == match Decoded(input) case Some(b) => (if isText(b) then Some(b) else None) case None => None
  {
    var buf: Bytes := [];
    var i := 0;
    PrependTwice([], [], Decoded(input));
    assert input[0..] == input;
    while i < |input|
      invariant 0 <= i <= |input|
      invariant Prepend(buf, Decoded(input[i..])) == Decoded(input)
    {
      var n := Min(4, |input| - i);
      var bytes := DecodeChunk(input[i..i + n]);
      assert input[i..][..n] == input[i..i + n] && input[i..][n..] == input[i + n..];
      if bytes.None? {
        return None;
      }
      PrependTwice(buf, bytes.value, Decoded(input[i + n..]));
      buf := buf + bytes.value;
      i := i + n;
    }
    PrependTwice(buf, [], Some([]));
    return if isText(buf) then Some(buf) else None;
  }

  // ---------- round trip ----------

  /** How many characters n bytes take: no padding. */
  function EncodedLength(n: nat): nat {
    4 * (n / 3) + (if n % 3 == 0 then 0 else n % 3 + 1)
  }

  lemma {:induction false} LengthIs(input: Bytes)
    ensures |Encoded(input)| == EncodedLength(|input|)
  {
    if input != [] {
      var n := Min(3, |input|);
      LengthIs(input[n..]);
    }
  }

  /** How many bytes come out of n characters, when they decode at all. */
  function DecodedLength(n: nat): nat {
    3 * (n / 4) + (if n % 4 == 0 then 0 else if n % 4 == 3 then 2 else 1)
  }

  lemma {:induction false} DecodedLengthIs(input: string)
    ensures Decoded(input).Some? ==> |Decoded(input).value| == DecodedLength(|input|)
  {
    if input != "" {
      var n := Min(4, |input|);
      DecodedLengthIs(input[n..]);
    }
  }

  lemma {:induction false} OneBack(b0: bv8)
    ensures DecodeGroup(EncodeGroup([b0])) == Some([b0])
  {
    BitsBack(b0, 0, 0);
    ReadShow(S0(b0));
    ReadShow(S1(b0, 0));
    var g := EncodeGroup([b0]);
    assert g == [Show(S0(b0)), Show(S1(b0, 0))];
    assert DecodeGroup(g) == Some([B0(S0(b0), S1(b0, 0))] + [] + []);
    assert [B0(S0(b0), S1(b0, 0))] + [] + [] == [b0];
  }

  lemma {:induction false} TwoBack(b0: bv8, b1: bv8)
    ensures DecodeGroup(EncodeGroup([b0, b1])) == Some([b0, b1])
  {
    BitsBack(b0, b1, 0);
    ReadShow(S0(b0));
    ReadShow(S1(b0, b1));
    ReadShow(S2(b1, 0));
    var g := EncodeGroup([b0, b1]);
    assert g == [Show(S0(b0)), Show(S1(b0, b1)), Show(S2(b1, 0))];
    assert DecodeGroup(g) == Some([b0] + [b1] + []);
    assert [b0] + [b1] + [] == [b0, b1];
  }

  lemma {:induction false} DecodeFour(c0: char, c1: char, c2: char, c3: char, s0: bv8, s1: bv8, s2: bv8, s3: bv8)
    requires Read(c0) == Some(s0) && Read(c1) == Some(s1) && Read(c2) == Some(s2) && Read(c3) == Some(s3)
    ensures DecodeGroup([c0, c1, c2, c3]) == Some([B0(s0, s1), B1(s1, s2), B2(s2, s3)])
  {
    assert [B0(s0, s1)] + [B1(s1, s2)] + [B2(s2, s3)] == [B0(s0, s1), B1(s1, s2), B2(s2, s3)];
  }

  lemma {:induction false} ThreeBack(b0: bv8, b1: bv8, b2: bv8)
    ensures DecodeGroup(EncodeGroup([b0, b1, b2])) == Some([b0, b1, b2])
  {
    BitsBack(b0, b1, b2);
    ReadShow(S0(b0));
    ReadShow(S1(b0, b1));
    ReadShow(S2(b1, b2));
    ReadShow(S3(b2));
    assert EncodeGroup([b0, b1, b2]) == [Show(S0(b0)), Show(S1(b0, b1)), Show(S2(b1, b2)), Show(S3(b2))];
    DecodeFour(Show(S0(b0)), Show(S1(b0, b1)), Show(S2(b1, b2)), Show(S3(b2)), S0(b0), S1(b0, b1), S2(b1, b2), S3(b2));
  }

  lemma {:induction false} GroupBack(group: Bytes)
    requires 1 <= |group| <= 3
    ensures |EncodeGroup(group)| == |group| + 1
    ensures DecodeGroup(EncodeGroup(group)) == Some(group)
  {
    if |group| == 1 {
      assert group == [group[0]];
      OneBack(group[0]);
    } else if |group| == 2 {
      assert group == [group[0], group[1]];
      TwoBack(group[0], group[1]);
    } else {
      assert group == [group[0], group[1], group[2]];
      ThreeBack(group[0], group[1], group[2]);
    }
  }

  /** Decoding undoes encoding, for every sequence of bytes. */
  lemma {:induction false} RoundTrip(input: Bytes)
    ensures Decoded(Encoded(input)) == Some(input)
  {
    if input != [] {
      var n := Min(3, |input|);
      GroupBack(input[..n]);
      RoundTrip(input[n..]);
      assert input[..n] + input[n..] == input;
      DecodeJoined(EncodeGroup(input[..n]), Encoded(input[n..]));
    }
  }

  /** A text whose first group is whole, or is all there is, decodes group by group. */
  lemma {:induction false} DecodeJoined(front: string, rest: string)
    requires 1 <= |front| <= 4 && (rest != "" ==> |front| == 4)
    ensures DecodeGroup(front).Some? ==> Decoded(front + rest) == Prepend(DecodeGroup(front).value, Decoded(rest))
  {
    var n := Min(4, |front + rest|);
    assert (front + rest)[..n] == front && (front + rest)[n..] == rest;
  }

  // ---------- the alphabet and the bits, written out ----------

  /** The alphabet of section 5 of RFC 4648: letters, digits, minus and underscore. */
  lemma {:induction false} AlphabetIs(i: nat)
    requires i < 64
    ensures |TABLE| == 64
    ensures i < 26 ==> TABLE[i] as int == 'A' as int + i
    ensures 26 <= i < 52 ==> TABLE[i] as int == 'a' as int + i - 26
    ensures 52 <= i < 62 ==> TABLE[i] as int == '0' as int + i - 52
    ensures i == 62 ==> TABLE[i] == '-'
    ensures i == 63 ==> TABLE[i] == '_'
  {
    if i < 26 {
      UpperIs(i);
    } else if i < 52 {
      LowerIs(i - 26);
    }
    assert |UPPER| == 26 && |LOWER| == 26;
  }

  lemma {:induction false} UpperIs(i: nat)
    requires i < 26
    ensures |UPPER| == 26 && UPPER[i] as int == 'A' as int + i
  {}

  lemma {:induction false} LowerIs(i: nat)
    requires i < 26
    ensures |LOWER| == 26 && LOWER[i] as int == 'a' as int + i
  {}

  /** Three bytes and their four sextets are the same 24 bits, most significant first. */
  lemma {:induction false} SameBits(b0: bv8, b1: bv8, b2: bv8)
    ensures ((b0 as bv24) << 16) | ((b1 as bv24) << 8) | (b2 as bv24) ==
            ((S0(b0) as bv24) << 18) | ((S1(b0, b1) as bv24) << 12) | ((S2(b1, b2) as bv24) << 6) | (S3(b2) as bv24)
  {}

  /** The first three bytes of a group show as its four sextets, in order. */
  lemma {:induction false} GroupShows(b0: bv8, b1: bv8, b2: bv8)
    ensures S0(b0) < 64 && S1(b0, b1) < 64 && S2(b1, b2) < 64 && S3(b2) < 64
    ensures |TABLE| == 64
    ensures EncodeGroup([b0, b1, b2]) ==
            [TABLE[S0(b0) as nat], TABLE[S1(b0, b1) as nat], TABLE[S2(b1, b2) as nat], TABLE[S3(b2) as nat]]
  {
    BitsBack(b0, b1, b2);
    Alphabet(0);
  }

  /** A short group shows as if zero bytes followed, without the characters that hold none of its
      bits. */
  lemma {:induction false} ShortGroupsShow(b0: bv8, b1: bv8)
    ensures S0(b0) < 64 && S1(b0, 0) < 64 && S1(b0, b1) < 64 && S2(b1, 0) < 64 && |TABLE| == 64
    ensures EncodeGroup([b0]) == [TABLE[S0(b0) as nat], TABLE[S1(b0, 0) as nat]]
    ensures EncodeGroup([b0, b1]) == [TABLE[S0(b0) as nat], TABLE[S1(b0, b1) as nat], TABLE[S2(b1, 0) as nat]]
  {
    BitsBack(b0, b1, 0);
    BitsBack(b0, 0, 0);
    Alphabet(0);
  }

  /** Which characters read, and as what: a padding sign as zero bits, those of the alphabet as
      their places, and no others. */
  lemma {:induction false} ReadsExactly(c: char)
    ensures Read(c).None? <==> c != '=' && c !in TABLE
    ensures c == '=' ==> Read(c) == Some(0)
    ensures Read(c).Some? && c != '=' ==> |TABLE| == 64 && Read(c).value < 64 && TABLE[Read(c).value as nat] == c
  {
    PositionInTable(TABLE, c);
    if c != '=' && Position(TABLE, c).Some? {
      ReadsPlace(Position(TABLE, c).value, c);
    }
  }

  lemma {:induction false} ReadsPlace(i: nat, c: char)
    requires c != '=' && Position(TABLE, c) == Some(i) && i < |TABLE| && TABLE[i] == c
    ensures |TABLE| == 64 && Read(c).Some? && Read(c).value < 64 && TABLE[Read(c).value as nat] == c
  {
    Alphabet(0);
    SmallByte(i);
  }

  lemma {:induction false} SmallByte(i: nat)
    requires i < 64
    ensures (i as bv8) < 64 && (i as bv8) as nat == i
  {}

  lemma {:induction false} BitsJoin(v0: bv8, v1: bv8, v2: bv8, v3: bv8)
    requires v0 < 64 && v1 < 64 && v2 < 64 && v3 < 64
    ensures ((B0(v0, v1) as bv24) << 16) | ((B1(v1, v2) as bv24) << 8) | (B2(v2, v3) as bv24) ==
            ((v0 as bv24) << 18) | ((v1 as bv24) << 12) | ((v2 as bv24) << 6) | (v3 as bv24)
  {}

  /** Four characters decode if and only if each of them reads, and then to the bytes with the
      same 24 bits. */
  lemma {:induction false} FourDecode(c0: char, c1: char, c2: char, c3: char)
    ensures var r, v0, v1, v2, v3 := DecodeGroup([c0, c1, c2, c3]), Read(c0), Read(c1), Read(c2), Read(c3);
            && (r.Some? <==> v0.Some? && v1.Some? && v2.Some? && v3.Some?)
            && (r.Some? ==>
                  && |r.value| == 3
                  && ((r.value[0] as bv24) << 16) | ((r.value[1] as bv24) << 8) | (r.value[2] as bv24) ==
                     ((v0.value as bv24) << 18) | ((v1.value as bv24) << 12) | ((v2.value as bv24) << 6) | (v3.value as bv24))
  {
    var g := [c0, c1, c2, c3];
    assert g[0] == c0 && g[1] == c1 && g[2] == c2 && g[3] == c3;
    if DecodeGroup(g).Some? {
      BitsJoin(Read(c0).value, Read(c1).value, Read(c2).value, Read(c3).value);
    }
  }

  /** A shorter group at the end decodes as if it were filled with padding signs, to one byte less
      than it has characters, but to one byte at least. */
  lemma {:induction false} ShortGroupsDecode(group: string)
    requires 1 <= |group| < 4
    ensures DecodeGroup(group) ==
            match DecodeGroup(group + "==="[..4 - |group|])
            case None => None
            case Some(bytes) => Some(bytes[..Max(1, |group| - 1)])
  {
    var whole := group + "==="[..4 - |group|];
    assert forall i :: 0 <= i < |group| ==> whole[i] == group[i];
    assert forall i :: |group| <= i < 4 ==> whole[i] == '=';
    if DecodeGroup(whole).Some? {
      var bytes, short := DecodeGroup(whole).value, DecodeGroup(group).value;
      assert |bytes| == 3 && |short| == Max(1, |group| - 1);
      assert short[0] == bytes[0] && (|group| == 3 ==> short[1] == bytes[1]);
      assert short == bytes[..|short|];
    }
  }

  /** A character left over at the end still decodes, to its six bits and two zero ones. */
  lemma {:induction false} LoneCharacterDecodes(c: char)
    ensures DecodeGroup([c]) == match Read(c) case Some(v) => Some([v << 2]) case None => None
  {
    if Read(c).Some? {
      var v := Read(c).value;
      assert B0(v, 0) == v << 2;
      assert [v << 2] + [] + [] == [v << 2];
    } else {
      assert [c][0] == c;
    }
  }
}
