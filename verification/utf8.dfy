/** Text as bytes: what the length limit of messages counts, and which bytes an invite code may hold. */
module Utf8 {
  import opened Bytes
  import opened Commands
  import opened Invite

  /** One character in UTF-8 (section 3 of RFC 3629). */
  function EncodeChar(c: char): (s: Bytes)
    ensures 1 <= |s| <= 4
  {
    var n := c as int;
    if n < 0x80 then [n]
    else if n < 0x800 then [0xC0 + n / 64, 0x80 + n % 64]
    else if n < 0x10000 then [0xE0 + n / 4096, 0x80 + n / 64 % 64, 0x80 + n % 64]
    else [0xF0 + n / 262144, 0x80 + n / 4096 % 64, 0x80 + n / 64 % 64, 0x80 + n % 64]
  }

  function Encoded(text: string): Bytes {
    if text == "" then [] else EncodeChar(text[0]) + Encoded(text[1..])
  }

  /** The limit on messages counts the bytes of their UTF-8 form. */
  lemma {:induction false} ByteLengthIsEncodedLength(text: string)
    ensures ByteLength(text) == |Encoded(text)|
  {
    if text != "" {
      ByteLengthIsEncodedLength(text[1..]);
    }
  }

  lemma CharIsUtf8(c: char, rest: Bytes)
    ensures IsUtf8(EncodeChar(c) + rest) <==> IsUtf8(rest)
  {
    var e := EncodeChar(c);
    var s := e + rest;
    assert s[|e|..] == rest;
    assert forall i :: 0 <= i < |e| ==> s[i] == e[i];
  }

  lemma {:induction false} EncodedIsUtf8(text: string)
    ensures IsUtf8(Encoded(text))
  {
    if text != "" {
      EncodedIsUtf8(text[1..]);
      CharIsUtf8(text[0], Encoded(text[1..]));
    }
  }

  lemma Char2(a: int, b: int) returns (c: char)
    requires 0xC2 <= a <= 0xDF && 0x80 <= b <= 0xBF
    ensures EncodeChar(c) == [a, b]
  {
    c := ((a - 0xC0) * 64 + (b - 0x80)) as char;
  }

  lemma Char3(a: int, b: int, d: int) returns (c: char)
    requires 0xE0 <= a <= 0xEF && 0x80 <= b <= 0xBF && 0x80 <= d <= 0xBF && (a == 0xE0 ==> b >= 0xA0) && (a == 0xED ==> b <= 0x9F)
    ensures EncodeChar(c) == [a, b, d]
  {
    var n := (a - 0xE0) * 4096 + (b - 0x80) * 64 + (d - 0x80);
    assert n / 64 == (a - 0xE0) * 64 + (b - 0x80) && n % 64 == d - 0x80;
    c := n as char;
  }

  lemma Char4(a: int, b: int, d: int, e: int) returns (c: char)
    requires 0xF0 <= a <= 0xF4 && 0x80 <= b <= 0xBF && 0x80 <= d <= 0xBF && 0x80 <= e <= 0xBF
    requires (a == 0xF0 ==> b >= 0x90) && (a == 0xF4 ==> b <= 0x8F)
    ensures EncodeChar(c) == [a, b, d, e]
  {
    var n := (a - 0xF0) * 262144 + (b - 0x80) * 4096 + (d - 0x80) * 64 + (e - 0x80);
    assert n / 64 == (a - 0xF0) * 4096 + (b - 0x80) * 64 + (d - 0x80) && n % 64 == e - 0x80;
    assert n / 4096 == (a - 0xF0) * 64 + (b - 0x80);
    c := n as char;
  }

  /** The first character of well-formed bytes. */
  lemma FirstChar(s: Bytes) returns (c: char)
    requires s != [] && IsUtf8(s)
    ensures EncodeChar(c) <= s && IsUtf8(s[|EncodeChar(c)|..])
  {
    if s[0] < 0x80 {
      c := s[0] as char;
    } else if s[0] <= 0xDF {
      c := Char2(s[0], s[1]);
    } else if s[0] <= 0xEF {
      c := Char3(s[0], s[1], s[2]);
    } else {
      c := Char4(s[0], s[1], s[2], s[3]);
    }
  }

  lemma {:induction false} Utf8IsEncoded(s: Bytes) returns (text: string)
    requires IsUtf8(s)
    ensures Encoded(text) == s
    decreases |s|
  {
    if s == [] {
      text := "";
    } else {
      var c := FirstChar(s);
      var rest := Utf8IsEncoded(s[|EncodeChar(c)|..]);
      text := [c] + rest;
      assert text[1..] == rest;
    }
  }

  /** The bytes that pass are exactly the UTF-8 forms of texts. */
  lemma IsUtf8Iff(s: Bytes)
    ensures IsUtf8(s) <==> exists text :: Encoded(text) == s
  {
    if IsUtf8(s) {
      var text := Utf8IsEncoded(s);
    } else if text :| Encoded(text) == s {
      EncodedIsUtf8(text);
    }
  }

  lemma EncodedColon()
    ensures Encoded(":") == [COLON]
  {
    assert ":"[1..] == "";
  }

  lemma EncodedTags()
    ensures Encoded("caraka0") == Tag(Lan) && Encoded("caraka1") == Tag(Tor)
  {
    EncodedTag("caraka0");
    EncodedTag("caraka1");
  }

  lemma EncodedTag(tag: string)
    requires |tag| == 7 && tag[..6] == "caraka" && tag[6] as int < 0x80
    ensures Encoded(tag) == [99, 97, 114, 97, 107, 97, tag[6] as int]
  {
    assert forall i :: 0 <= i < 6 ==> tag[i] == "caraka"[i];
    assert Encoded(tag[7..]) == [];
    assert tag[6..][1..] == tag[7..] && Encoded(tag[6..]) == [tag[6] as int];
    assert tag[5..][1..] == tag[6..] && Encoded(tag[5..]) == [97] + Encoded(tag[6..]);
    assert tag[4..][1..] == tag[5..] && Encoded(tag[4..]) == [107] + Encoded(tag[5..]);
    assert tag[3..][1..] == tag[4..] && Encoded(tag[3..]) == [97] + Encoded(tag[4..]);
    assert tag[2..][1..] == tag[3..] && Encoded(tag[2..]) == [114] + Encoded(tag[3..]);
    assert tag[1..][1..] == tag[2..] && Encoded(tag[1..]) == [97] + Encoded(tag[2..]);
  }

  /** What a code is made of, before base64. */
  lemma RawCodeReads(v: Invitation)
    ensures RawCode(v) == Encoded(if v.via.Lan? then "caraka0" else "caraka1") + Encoded(":") + v.nodeId + Encoded(":") + v.address
                          + Encoded(":") + Decimal(v.port)
  {
    EncodedColon();
    EncodedTags();
  }

  /** The 25 characters with the property White_Space, by which texts and codes are trimmed. */
  const WHITE_SPACE: seq<int> :=
    [9, 10, 11, 12, 13, 32, 133, 160, 5760, 8192, 8193, 8194, 8195, 8196, 8197, 8198, 8199, 8200, 8201, 8202, 8232, 8233, 8239, 8287, 12288]

  lemma IsSpaceIff(c: char)
    ensures IsSpace(c) <==> c as int in WHITE_SPACE
  {}
}
