/** Invite codes: `hp-<uuid>-<payload>`, and exactly when the joiner can read the payload back
    from the text after the last dash. */
module InviteCodes {
  import opened Basics
  import opened Base64Url

  function Code(uuid: string, payload: Bytes): string {
    "hp-" + uuid + "-" + Encoded(payload)
  }

  /** The text after the last dash. */
  function Tail(code: string): string {
    if code == "" || code[|code| - 1] == '-' then "" else Tail(code[..|code| - 1]) + [code[|code| - 1]]
  }

  lemma {:induction false} TailHasNoDash(code: string)
    ensures '-' !in Tail(code)
    ensures |Tail(code)| <= |code| && code[|code| - |Tail(code)|..] == Tail(code)
    ensures '-' in code ==> |Tail(code)| < |code|
    ensures '-' !in code ==> Tail(code) == code
  {
    if code != "" && code[|code| - 1] != '-' {
      var n := |code| - 1;
      TailHasNoDash(code[..n]);
      assert code == code[..n] + [code[n]];
    }
  }

  lemma {:induction false} TailOfJoin(front: string, back: string)
    ensures '-' in back ==> Tail(front + back) == Tail(back)
    ensures '-' !in back && front != "" && front[|front| - 1] == '-' ==> Tail(front + back) == back
    decreases |back|
  {
    if back == "" {
      assert front + back == front;
    } else {
      var n := |back| - 1;
      assert (front + back)[..|front + back| - 1] == front + back[..n];
      assert back == back[..n] + [back[n]];
      if back[n] != '-' {
        TailOfJoin(front, back[..n]);
      }
    }
  }

  /** The tail of a code is the tail of its encoded payload. */
  lemma {:induction false} TailOfCode(uuid: string, payload: Bytes)
    ensures Tail(Code(uuid, payload)) == Tail(Encoded(payload))
  {
    var front, e := "hp-" + uuid + "-", Encoded(payload);
    TailOfJoin(front, e);
    TailHasNoDash(e);
    assert Code(uuid, payload) == front + e;
  }

  lemma {:induction false} OnlyDashReads(c: char)
    ensures Read(c) == Some(62) <==> c == '-'
  {
    CharBack(62);
    PositionInTable(TABLE, c);
    if Read(c) == Some(62) {
      var i := Position(TABLE, c).value;
      assert i as bv8 == 62;
    }
  }

  lemma {:induction false} TopSix(s0: bv8, s1: bv8)
    requires s0 < 64 && s1 < 64
    ensures S0(B0(s0, s1)) == s0
  {}

  /** The first character holds the top six bits of the first byte. */
  lemma {:induction false} FirstEncoded(payload: Bytes)
    requires payload != []
    ensures Encoded(payload) != "" && Read(Encoded(payload)[0]) == Some(S0(payload[0]))
  {
    var group := payload[..Min(3, |payload|)];
    BitsBack(group[0], if |group| > 1 then group[1] else 0, if |group| > 2 then group[2] else 0);
    ReadShow(S0(payload[0]));
  }

  lemma {:induction false} FirstDecoded(text: string)
    requires text != "" && Decoded(text).Some?
    ensures Decoded(text).value != [] && Read(text[0]) == Some(S0(Decoded(text).value[0]))
  {
    var group := text[..Min(4, |text|)];
    var s0 := Read(group[0]);
    var s1 := if |group| > 1 then Read(group[1]) else Some(0);
    assert DecodeGroup(group).Some? && DecodeGroup(group).value[0] == B0(s0.value, s1.value);
    TopSix(s0.value, s1.value);
  }

  /** A tail that lost something cannot decode to the whole payload. */
  lemma {:induction false} CutTailDecodesElse(payload: Bytes)
    requires '-' in Encoded(payload)
    ensures Decoded(Tail(Encoded(payload))) != Some(payload)
  {
    var e := Encoded(payload);
    var t := Tail(e);
    TailHasNoDash(e);
    LengthIs(payload);
    DecodedLengthIs(t);
    if Decoded(t) == Some(payload) {
      LengthsMeet(|payload|, |t|);
      FirstEncoded(payload);
      FirstDecoded(t);
      assert e == [e[0]] + t;
      assert t[0] in t;
      OnlyDashReads(e[0]);
      OnlyDashReads(t[0]);
    }
  }

  lemma {:induction false} LengthsMeet(n: nat, shorter: nat)
    requires shorter < EncodedLength(n) && DecodedLength(shorter) == n
    ensures shorter + 1 == EncodedLength(n) && 0 < shorter && 0 < n
  {}

  /** The joiner reads the inviter's payload off the code exactly when its encoding has no
      dash. */
  lemma {:induction false} CodeIsReadable(uuid: string, payload: Bytes)
    ensures Decoded(Tail(Code(uuid, payload))) == Some(payload) <==> '-' !in Encoded(payload)
  {
    TailOfCode(uuid, payload);
    TailHasNoDash(Encoded(payload));
    if '-' in Encoded(payload) {
      CutTailDecodesElse(payload);
    } else {
      RoundTrip(payload);
    }
  }

  // ---------- which payloads have no dash ----------

  predicate SevenBit(payload: Bytes) { forall i :: 0 <= i < |payload| ==> payload[i] < 0x80 }

  /** A greater-than sign or a tilde. */
  predicate Troubling(b: bv8) { b == 0x3e || b == 0x7e }

  lemma {:induction false} SevenBitSextets(b0: bv8, b1: bv8, b2: bv8)
    requires b0 < 0x80 && b1 < 0x80 && b2 < 0x80
    ensures S0(b0) != 62 && S1(b0, b1) != 62 && S2(b1, b2) != 62
    ensures S3(b2) == 62 <==> Troubling(b2)
  {}

  lemma {:induction false} DashInGroup(group: Bytes)
    requires 1 <= |group| <= 3 && SevenBit(group)
    ensures '-' in EncodeGroup(group) <==> |group| == 3 && Troubling(group[2])
  {
    var b0 := group[0];
    var b1 := if |group| > 1 then group[1] else 0;
    var b2 := if |group| > 2 then group[2] else 0;
    SevenBitSextets(b0, b1, b2);
    BitsBack(b0, b1, b2);
    ReadShow(S0(b0));
    ReadShow(S1(b0, b1));
    ReadShow(S2(b1, b2));
    ReadShow(S3(b2));
    var g := EncodeGroup(group);
    assert g == [Show(S0(b0)), Show(S1(b0, b1))]
                + (if |group| > 1 then [Show(S2(b1, b2))] else [])
                + (if |group| > 2 then [Show(S3(b2))] else []);
    assert |group| > 2 ==> g[3] == Show(S3(b2));
  }

  ghost predicate TroubleAt(payload: Bytes, i: nat) {
    i < |payload| && i % 3 == 2 && Troubling(payload[i])
  }

  lemma {:induction false} DashWhenTroubled(payload: Bytes)
    requires SevenBit(payload)
    ensures '-' in Encoded(payload) <==> exists i :: TroubleAt(payload, i)
  {
    if payload != [] {
      var n := Min(3, |payload|);
      var rest := payload[n..];
      DashInGroup(payload[..n]);
      DashWhenTroubled(rest);
      forall i: nat | 3 <= i ensures TroubleAt(payload, i) <==> TroubleAt(rest, i - 3) {}
      if j: nat :| TroubleAt(rest, j) {
        assert TroubleAt(payload, j + 3);
      }
      if i: nat :| TroubleAt(payload, i) {
        assert i >= 3 ==> TroubleAt(rest, i - 3);
        assert i < 3 ==> i == 2;
      }
      if |payload| >= 3 && Troubling(payload[2]) {
        assert TroubleAt(payload, 2);
      }
    }
  }

  /** For payloads of 7-bit characters: the code can be read back exactly when no tilde and no
      greater-than sign falls on the third byte of a group of three; payloads without these
      signs can always be read back. */
  lemma {:induction false} SevenBitCodes(uuid: string, payload: Bytes)
    requires SevenBit(payload)
    ensures Decoded(Tail(Code(uuid, payload))) == Some(payload) <==> !exists i :: TroubleAt(payload, i)
    ensures (forall b :: b in payload ==> !Troubling(b)) ==> Decoded(Tail(Code(uuid, payload))) == Some(payload)
  {
    CodeIsReadable(uuid, payload);
    DashWhenTroubled(payload);
  }

  // ---------- the payload of an invite ----------

  function Hex(d: bv8): bv8
    requires d < 16
  {
    if d < 10 then 0x30 + d else 0x57 + d
  }

  /** One byte of a text, as JSON writes it. */
  function Escape(b: bv8): Bytes {
    if b == 0x22 || b == 0x5c then [0x5c, b]
    else if b == 0x08 then [0x5c, 0x62]
    else if b == 0x09 then [0x5c, 0x74]
    else if b == 0x0a then [0x5c, 0x6e]
    else if b == 0x0c then [0x5c, 0x66]
    else if b == 0x0d then [0x5c, 0x72]
    else if b < 0x20 then [0x5c, 0x75, 0x30, 0x30, Hex(b >> 4), Hex(b & 0x0f)]
    else [b]
  }

  function Escaped(text: Bytes): Bytes {
    if text == [] then [] else Escape(text[0]) + Escaped(text[1..])
  }

  /** `{"url":"` and `"}`. */
  const OPENING: Bytes := [0x7b, 0x22, 0x75, 0x72, 0x6c, 0x22, 0x3a, 0x22]
  const CLOSING: Bytes := [0x22, 0x7d]

  /** What an invite carries: the inviter's URL, as a JSON object. */
  function UrlPayload(url: Bytes): Bytes { OPENING + Escaped(url) + CLOSING }

  lemma {:induction false} EscapedSevenBit(text: Bytes)
    requires SevenBit(text)
    ensures SevenBit(Escaped(text))
  {
    if text != [] {
      EscapedSevenBit(text[1..]);
      var front := Escape(text[0]);
      assert text[0] < 0x80;
      assert SevenBit(front);
      var r := Escaped(text);
      forall i | 0 <= i < |r| ensures r[i] < 0x80 {
        assert r[i] == if i < |front| then front[i] else Escaped(text[1..])[i - |front|];
      }
    }
  }

  /** A tilde or a greater-than sign where the encoding turns it into a dash. */
  ghost predicate UrlTroubleAt(escaped: Bytes, i: nat) {
    i < |escaped| && i % 3 == 0 && Troubling(escaped[i])
  }

  lemma {:induction false} PayloadTrouble(url: Bytes, i: nat)
    ensures TroubleAt(UrlPayload(url), i) <==> 8 <= i && UrlTroubleAt(Escaped(url), i - 8)
  {
    var p, e := UrlPayload(url), Escaped(url);
    assert |OPENING| == 8 && |CLOSING| == 2;
    if i < 8 {
      assert p[i] == OPENING[i];
    } else if i < 8 + |e| {
      assert p[i] == e[i - 8];
    } else if i < |p| {
      assert p[i] == CLOSING[i - 8 - |e|];
    }
  }

  /** The joiner can read the inviter's URL off the code exactly when no tilde and no
      greater-than sign stands at a position of the URL, as JSON writes it, that is divisible by
      three. */
  lemma {:induction false} UrlCodes(uuid: string, url: Bytes)
    requires SevenBit(url)
    ensures Decoded(Tail(Code(uuid, UrlPayload(url)))) == Some(UrlPayload(url)) <==>
            !exists i :: UrlTroubleAt(Escaped(url), i)
  {
    var p, e := UrlPayload(url), Escaped(url);
    EscapedSevenBit(url);
    assert SevenBit(p);
    SevenBitCodes(uuid, p);
    TroublesMatch(url);
  }

  lemma {:induction false} TroublesMatch(url: Bytes)
    ensures (exists i :: TroubleAt(UrlPayload(url), i)) <==> exists i :: UrlTroubleAt(Escaped(url), i)
  {
    if i: nat :| TroubleAt(UrlPayload(url), i) {
      PayloadTrouble(url, i);
      assert UrlTroubleAt(Escaped(url), i - 8);
    }
    if j: nat :| UrlTroubleAt(Escaped(url), j) {
      PayloadTrouble(url, j + 8);
      assert TroubleAt(UrlPayload(url), j + 8);
    }
  }

  predicate Plain(text: Bytes) {
    forall i :: 0 <= i < |text| ==> 0x20 <= text[i] && text[i] != 0x22 && text[i] != 0x5c
  }

  /** Printable URLs without quotes and backslashes are written as they are. */
  lemma {:induction false} PlainIsEscaped(url: Bytes)
    requires Plain(url)
    ensures Escaped(url) == url
  {
    if url != [] {
      PlainIsEscaped(url[1..]);
    }
  }

  /** `http://aa.b/` and `~x`. */
  const HOST: Bytes := [0x68, 0x74, 0x74, 0x70, 0x3a, 0x2f, 0x2f, 0x61, 0x61, 0x2e, 0x62, 0x2f]
  const PATH: Bytes := [0x7e, 0x78]

  /** An ordinary URL whose invite cannot be joined: its tilde is the thirteenth character. */
  lemma {:induction false} TildeUrlIsLost(uuid: string)
    ensures Decoded(Tail(Code(uuid, UrlPayload(HOST + PATH)))) != Some(UrlPayload(HOST + PATH))
  {
    var url := HOST + PATH;
    PlainExample();
    PlainIsEscaped(url);
    assert url[12] == 0x7e;
    assert UrlTroubleAt(url, 12);
    UrlCodes(uuid, url);
  }

  lemma {:induction false} PlainExample()
    ensures Plain(HOST + PATH) && SevenBit(HOST + PATH)
  {
    var url := HOST + PATH;
    forall i | 0 <= i < |url| ensures 0x20 <= url[i] < 0x80 && url[i] != 0x22 && url[i] != 0x5c {
      assert url[i] == if i < 12 then HOST[i] else PATH[i - 12];
    }
  }

  /** The payload is the object with the URL, as JSON writes it, under `url`. */
  lemma {:induction false} PayloadIs(url: Bytes)
    ensures UrlPayload(url)[..8] == OPENING && UrlPayload(url)[8..8 + |Escaped(url)|] == Escaped(url)
    ensures UrlPayload(url)[8 + |Escaped(url)|..] == CLOSING
    ensures |OPENING| == 8 && forall i :: 0 <= i < 8 ==> OPENING[i] as int == "{\"url\":\""[i] as int
    ensures |CLOSING| == 2 && CLOSING[0] as int == '"' as int && CLOSING[1] as int == '}' as int
  {
    assert |OPENING| == 8 && |CLOSING| == 2;
  }

  /** Codes with different uuids of one length are different, whatever they carry. */
  lemma {:induction false} FreshUuidsGiveFreshCodes(u: string, v: string, p: Bytes, q: Bytes)
    requires |u| == |v| && Code(u, p) == Code(v, q)
    ensures u == v
  {
    assert Code(u, p)[3..3 + |u|] == u;
    assert Code(v, q)[3..3 + |v|] == v;
  }

  // ---------- the payload reads back ----------

  function HexValue(c: bv8): Option<bv8> {
    if 0x30 <= c <= 0x39 then Some(c - 0x30)
    else if 0x61 <= c <= 0x66 then Some(c - 0x57)
    else if 0x41 <= c <= 0x46 then Some(c - 0x37)
    else None
  }

  /** A JSON string, without its quotes, as the text it stands for (section 7 of RFC 8259); of the
      escapes by number, those of a single byte. */
  function Unescaped(s: Bytes): Option<Bytes> {
    if s == [] then Some([])
    else if s[0] == 0x22 || s[0] < 0x20 then None
    else if s[0] != 0x5c then Prepend([s[0]], Unescaped(s[1..]))
    else if |s| < 2 then None
    else if s[1] == 0x22 || s[1] == 0x5c || s[1] == 0x2f then Prepend([s[1]], Unescaped(s[2..]))
    else if s[1] == 0x62 then Prepend([0x08], Unescaped(s[2..]))
    else if s[1] == 0x66 then Prepend([0x0c], Unescaped(s[2..]))
    else if s[1] == 0x6e then Prepend([0x0a], Unescaped(s[2..]))
    else if s[1] == 0x72 then Prepend([0x0d], Unescaped(s[2..]))
    else if s[1] == 0x74 then Prepend([0x09], Unescaped(s[2..]))
    else if s[1] == 0x75 && |s| >= 6 && s[2] == 0x30 && s[3] == 0x30 && HexValue(s[4]).Some? && HexValue(s[5]).Some?
    then Prepend([(HexValue(s[4]).value << 4) | HexValue(s[5]).value], Unescaped(s[6..]))
    else None
  }

  lemma {:induction false} HexBack(b: bv8)
    ensures b >> 4 < 16 && b & 0x0f < 16
    ensures HexValue(Hex(b >> 4)) == Some(b >> 4) && HexValue(Hex(b & 0x0f)) == Some(b & 0x0f)
    ensures ((b >> 4) << 4) | (b & 0x0f) == b
  {}

  /** The control characters that have no short escape. */
  predicate Numbered(b: bv8) { b < 0x20 && b != 0x08 && b != 0x09 && b != 0x0a && b != 0x0c && b != 0x0d }

  lemma {:induction false} NumberReadsBack(b: bv8, rest: Bytes)
    requires Numbered(b)
    ensures Unescaped(Escape(b) + rest) == Prepend([b], Unescaped(rest))
  {
    HexBack(b);
    assert Escape(b) == [0x5c, 0x75, 0x30, 0x30, Hex(b >> 4), Hex(b & 0x0f)];
    assert (Escape(b) + rest)[6..] == rest;
  }

  lemma {:induction false} PairReadsBack(b: bv8, rest: Bytes)
    requires (b == 0x22 || b == 0x5c || b < 0x20) && !Numbered(b)
    ensures Unescaped(Escape(b) + rest) == Prepend([b], Unescaped(rest))
  {
    assert |Escape(b)| == 2;
    assert (Escape(b) + rest)[2..] == rest;
  }

  lemma {:induction false} ByteReadsBack(b: bv8, rest: Bytes)
    ensures Unescaped(Escape(b) + rest) == Prepend([b], Unescaped(rest))
  {
    if Numbered(b) {
      NumberReadsBack(b, rest);
    } else if b == 0x22 || b == 0x5c || b < 0x20 {
      PairReadsBack(b, rest);
    } else {
      assert (Escape(b) + rest)[1..] == rest;
    }
  }

  /** The URL that JSON writes is the URL that JSON reads. */
  lemma {:induction false} UrlReadsBack(url: Bytes)
    ensures Unescaped(Escaped(url)) == Some(url)
  {
    if url != [] {
      UrlReadsBack(url[1..]);
      ByteReadsBack(url[0], Escaped(url[1..]));
      assert [url[0]] + url[1..] == url;
    }
  }
}
