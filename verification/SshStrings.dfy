/** The string type of section 5 of RFC 4251, and the cursor that takes strings off a buffer. */
module SshStrings {
  import opened Bytes

  /** The bytes of an ASCII literal. */
  function Ascii(s: string): (b: bytes)
    ensures |b| == |s|
  {
    if s == "" then [] else Ascii(s[..|s| - 1]) + [s[|s| - 1] as int % 256]
  }

  /** Its bytes are the character codes, one for one. */
  lemma {:induction false} AsciiExact(s: string)
    ensures forall i :: 0 <= i < |s| ==> Ascii(s)[i] == s[i] as int % 256
    ensures forall i :: 0 <= i < |s| && s[i] as int < 256 ==> Ascii(s)[i] == s[i] as int
  {
    if s != "" {
      AsciiExact(s[..|s| - 1]);
    }
  }

  /** The encoding itself: the length as a word, then the bytes. */
  lemma StringSpelled(value: bytes)
    requires |value| < 0x1_0000_0000
    ensures EncodeString(value) == EncodeU32(|value|) + value
  {
  }

  function EncodeString(value: bytes): bytes
    requires |value| < U32_LIMIT
  {
    EncodeU32(|value|) + value
  }

  /** The string at the front of data, and what follows it. */
  function TakeString(data: bytes): (r: Option<(bytes, bytes)>)
    ensures r.Some? ==> |r.value.0| < U32_LIMIT && |r.value.1| + 4 + |r.value.0| == |data|
  {
    if |data| < 4 then None else
      var length := DecodeU32(data[..4]);
      if length > |data| - 4 then None else Some((data[4..4 + length], data[4 + length..]))
  }

  /** Taking a string succeeds exactly on its encoding followed by anything, and never otherwise. */
  lemma TakeStringExact(data: bytes, value: bytes, rest: bytes)
    ensures TakeString(data) == Some((value, rest)) <==>
            |value| < U32_LIMIT && data == EncodeString(value) + rest
  {
    if |value| < U32_LIMIT && data == EncodeString(value) + rest {
      assert data[..4] == EncodeU32(|value|);
      DecodeOfEncode(|value|);
      assert data[4..4 + |value|] == value && data[4 + |value|..] == rest;
    }
    if TakeString(data) == Some((value, rest)) {
      EncodeOfDecode(data[..4]);
      assert data == data[..4] + data[4..4 + |value|] + data[4 + |value|..];
    }
  }

  /** Encodings are prefix-free: two of them that head the same bytes are the same string. */
  lemma EncodeStringPrefixFree(v: bytes, x: bytes, w: bytes, y: bytes)
    requires |v| < U32_LIMIT && |w| < U32_LIMIT
    requires EncodeString(v) + x == EncodeString(w) + y
    ensures v == w && x == y
  {
    TakeStringExact(EncodeString(v) + x, v, x);
    TakeStringExact(EncodeString(v) + x, w, y);
  }

  /** takeString (openssh/keys.go:153-164): a failed take leaves the cursor where it was. */
  class Cursor {
    var data: bytes

    constructor (data: bytes)
      ensures this.data == data
    {
      this.data := data;
    }

    method Take() returns (value: bytes, ok: bool)
      modifies this
      ensures ok == TakeString(old(data)).Some?
      ensures ok ==> |value| < U32_LIMIT && old(data) == EncodeString(value) + data
      ensures ok ==> TakeString(old(data)) == Some((value, data))
      ensures !ok ==> value == [] && data == old(data)
    {
      if |data| < 4 {
        return [], false;
      }
      var length := DecodeU32(data[..4]);
      if length > |data| - 4 {
        return [], false;
      }
      value := data[4..4 + length];
      ok := true;
      TakeStringExact(data, value, data[4 + length..]);
      data := data[4 + length..];
    }
  }
}
