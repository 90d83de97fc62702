/**
 The wire forms written out byte by byte: section 5 of RFC 4251 (words and strings), the
 framing, the identities answer and the sign request of the agent protocol (RFC 9987), and
 the userauth payload of section 7 of RFC 4252. What the parsers accept is exactly this.
 */
module WireForms {
  import opened Bytes
  import opened Frames
  import opened SshStrings
  import opened Text
  import opened Keys

  /** A word, most significant byte first. */
  function Word(n: nat): bytes
    requires n < 0x1_0000_0000
  {
    [n / 16777216, n / 65536 % 256, n / 256 % 256, n % 256]
  }

  function Str(value: bytes): bytes
    requires |value| < 0x1_0000_0000
  {
    Word(|value|) + value
  }

  function Framing(payload: bytes): bytes
    requires |payload| < 0x1_0000_0000
  {
    Word(|payload|) + payload
  }

  lemma WordIs(n: nat)
    requires n < 0x1_0000_0000
    ensures EncodeU32(n) == Word(n)
  {
    var (a, b, c) := (n / 256, n / 65536, n / 16777216);
    assert b == a / 256 && c == b / 256;
    WordExact(Word(n), n);
  }

  lemma StrIs(value: bytes)
    requires |value| < 0x1_0000_0000
    ensures EncodeString(value) == Str(value) && Frame(value) == Framing(value)
  {
    WordIs(|value|);
  }

  // ----- key blobs -----

  /** The name of a key type: 1 to 128 graphic ASCII bytes. */
  predicate Graphic(t: bytes) {
    1 <= |t| <= 128 && forall i :: 0 <= i < |t| ==> 33 <= t[i] <= 126
  }

  /** A blob of type t is recognised: the type as a string and at least one byte more. */
  lemma BlobHasType(t: bytes, rest: bytes)
    requires Graphic(t) && rest != []
    ensures KeyType(Str(t) + rest) == Some(t)
  {
    StrIs(t);
    TakeStringExact(Str(t) + rest, t, rest);
  }

  /** Nothing else has a type. */
  lemma TypedIsBlob(blob: bytes)
    requires KeyType(blob).Some?
    ensures var t := KeyType(blob).value;
            Graphic(t) && |blob| > 4 + |t| && blob == Str(t) + blob[4 + |t|..]
  {
    var t := KeyType(blob).value;
    StrIs(t);
    Rejoined(blob, 4 + |t|, |blob|);
  }

  // ----- the identities answer -----

  /** The entry of a key of type t: any blob of that type, any comment. */
  predicate Listed(e: Entry) {
    |e.blob| < 0x1_0000_0000 && |e.comment| < 0x1_0000_0000 && KeyType(e.blob).Some?
  }

  /** Blob and comment of each key, each as a string, one after the other. */
  function Pairs(es: seq<Entry>): bytes
    requires forall i {:trigger es[i]} :: 0 <= i < |es| ==> Listed(es[i])
  {
    if es == [] then [] else
      assert Listed(es[0]);
      Str(es[0].blob) + Str(es[0].comment) + Pairs(es[1..])
  }

  lemma {:induction false} PairsAre(es: seq<Entry>)
    requires AllWellFormed(es) && forall i {:trigger es[i]} :: 0 <= i < |es| ==> Listed(es[i])
    ensures EncodeEntries(es) == Pairs(es)
  {
    if es != [] {
      StrIs(es[0].blob);
      StrIs(es[0].comment);
      PairsAre(es[1..]);
    }
  }

  /** A key list decodes to these entries exactly when it is type 12, their number, and their pairs. */
  lemma IdentitiesAnswer(reply: bytes, es: seq<Entry>)
    requires |es| < 0x1_0000_0000 && forall i {:trigger es[i]} :: 0 <= i < |es| ==> Listed(es[i])
    ensures var payload := [12] + Word(|es|) + Pairs(es);
            DecodeKeyList(reply) == Some(es) <==> |payload| <= 262144 && reply == Framing(payload)
  {
    assert AllWellFormed(es);
    PairsAre(es);
    WordIs(|es|);
    var payload := [12] + Word(|es|) + Pairs(es);
    KeyListExact(reply, es);
    if |payload| < 0x1_0000_0000 {
      StrIs(payload);
    }
  }

  // ----- userauth -----

  /** "ssh-connection" */
  const SSH_CONNECTION: bytes := [115, 115, 104, 45, 99, 111, 110, 110, 101, 99, 116, 105, 111, 110]

  /** "publickey" */
  const PUBLIC_KEY: bytes := [112, 117, 98, 108, 105, 99, 107, 101, 121]

  /** "publickey-hostbound-v00@openssh.com" */
  const HOST_BOUND: bytes := [
    112, 117, 98, 108, 105, 99, 107, 101, 121, 45, 104, 111, 115, 116, 98, 111, 117, 110, 100, 45, 118, 48, 48,
    64, 111, 112, 101, 110, 115, 115, 104, 46, 99, 111, 109]

  lemma NamesAre()
    ensures EncodeString(Ascii(SERVICE)) == [0, 0, 0, 14] + SSH_CONNECTION
    ensures EncodeString(Method(false)) == [0, 0, 0, 9] + PUBLIC_KEY
    ensures EncodeString(Method(true)) == [0, 0, 0, 35] + HOST_BOUND
  {
    ServiceIs();
    PublickeyIs();
    HostboundIs();
    StrIs(SSH_CONNECTION);
    StrIs(PUBLIC_KEY);
    StrIs(HOST_BOUND);
  }

  lemma ServiceIs()
    ensures Ascii(SERVICE) == SSH_CONNECTION
  {
    AsciiExact(SERVICE);
  }

  lemma PublickeyIs()
    ensures Method(false) == PUBLIC_KEY
  {
    AsciiExact(PUBLICKEY);
  }

  lemma HostboundIs()
    ensures Method(true) == HOST_BOUND
  {
    AsciiExact(HOSTBOUND);
  }

  /**
   Session identifier, 50, user, service, method, 1, algorithm and key, and the host key of
   the host-bound form.
   */
  function UserauthBytes(u: Userauth, key: bytes): bytes
    requires Present(u) && |key| < 0x1_0000_0000
  {
    Str(u.session) + ([50] + (Str(u.user) + (([0, 0, 0, 14] + SSH_CONNECTION)
      + ((if u.hostKey.Some? then [0, 0, 0, 35] + HOST_BOUND else [0, 0, 0, 9] + PUBLIC_KEY)
      + ([1] + (Str(u.algorithm) + (Str(key) + (if u.hostKey.Some? then Str(u.hostKey.value) else []))))))))
  }

  /** No field is empty. */
  predicate Present(u: Userauth) {
    && 1 <= |u.session| < 0x1_0000_0000 && 1 <= |u.user| < 0x1_0000_0000 && 1 <= |u.algorithm| < 0x1_0000_0000
    && (u.hostKey.Some? ==> 1 <= |u.hostKey.value| < 0x1_0000_0000)
  }

  lemma UserauthIs(u: Userauth, key: bytes)
    requires Present(u) && |key| < 0x1_0000_0000
    ensures WellFormedAuth(u) && EncodeUserauth(u, key) == UserauthBytes(u, key)
  {
    NamesAre();
    StrIs(u.session);
    StrIs(u.user);
    KeyPartIs(u, key);
  }

  lemma KeyPartIs(u: Userauth, key: bytes)
    requires Present(u) && |key| < 0x1_0000_0000
    ensures EncodeKeyPart(u.algorithm, key, u.hostKey) ==
            Str(u.algorithm) + (Str(key) + (if u.hostKey.Some? then Str(u.hostKey.value) else []))
  {
    StrIs(u.algorithm);
    StrIs(key);
    if u.hostKey.Some? {
      StrIs(u.hostKey.value);
      assert Str(u.hostKey.value) + [] == Str(u.hostKey.value);
    }
  }

  /** Data that signs with `key` is recognised as these fields exactly when it is these bytes. */
  lemma UserauthData(data: bytes, key: bytes, u: Userauth)
    requires Present(u) && |key| < 0x1_0000_0000
    ensures Recognise(data, key) == Some(u) <==> data == UserauthBytes(u, key)
  {
    UserauthIs(u, key);
    RecogniseExact(data, key, u);
  }

  // ----- sign requests -----

  /** A sign request is type 13, the key blob and the data as strings, and four bytes of flags. */
  lemma SignRequestBytes(frame: bytes, blob: bytes, data: bytes, flags: bytes)
    requires |blob| < 0x1_0000_0000 && |data| < 0x1_0000_0000 && |flags| == 4 && KeyType(blob).Some?
    ensures var payload := [13] + (Str(blob) + (Str(data) + flags));
            DecodeSigning(frame) == Some(Signing(blob, data, flags)) <==>
            |payload| <= 16379 && frame == Framing(payload)
  {
    var s := Signing(blob, data, flags);
    var payload := [13] + (Str(blob) + (Str(data) + flags));
    StrIs(blob);
    StrIs(data);
    SigningExact(frame, s);
    if |payload| < 0x1_0000_0000 {
      StrIs(payload);
    }
  }

  /**
   A genuine SSH login: a sign request for a key of type t over userauth data for that same
   key. The parser's contract then gives the type, and the user in display form.
   */
  lemma LoginIsNamed(t: bytes, rest: bytes, u: Userauth, flags: bytes, frame: bytes)
    requires Graphic(t) && rest != [] && |t| + |rest| < 10000 && Present(u) && |flags| == 4
    requires var blob := Str(t) + rest;
             && |UserauthBytes(u, blob)| < 0x1_0000_0000
             && var payload := [13] + (Str(blob) + (Str(UserauthBytes(u, blob)) + flags));
                |payload| <= 16379 && frame == Framing(payload)
    ensures var blob := Str(t) + rest;
            && DecodeSigning(frame) == Some(Signing(blob, UserauthBytes(u, blob), flags))
            && KeyType(blob) == Some(t) && Recognise(UserauthBytes(u, blob), blob) == Some(u)
  {
    var blob := Str(t) + rest;
    BlobHasType(t, rest);
    SignRequestBytes(frame, blob, UserauthBytes(u, blob), flags);
    UserauthData(UserauthBytes(u, blob), blob, u);
  }

  // ----- what is shown of them -----

  /** The user's name, up to 256 characters of it. */
  lemma UserIsShown(cf: set<Rune>, user: bytes)
    ensures DisplaysAs(cf, DecodeRunes(user), 256, Displayed(cf, DecodeRunes(user), 256))
    ensures ShownUser(cf, user) == EncodeRunes(Displayed(cf, DecodeRunes(user), 256))
  {
    DisplayedExact(cf, DecodeRunes(user), 256);
  }

  /** A key's type, the digest of its blob, and up to 1024 characters of its comment. */
  lemma KeyIsShown(cf: set<Rune>, e: Entry)
    requires Listed(e)
    ensures DisplaysAs(cf, DecodeRunes(e.comment), 1024, Displayed(cf, DecodeRunes(e.comment), 1024))
    ensures KeyOf(cf, e) == Key(KeyType(e.blob).value, SHA256(e.blob),
                                EncodeRunes(Displayed(cf, DecodeRunes(e.comment), 1024)))
  {
    DisplayedExact(cf, DecodeRunes(e.comment), 1024);
  }
}
