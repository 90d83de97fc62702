/**
 The metadata parsers of openssh/keys.go: key lists and sign requests of the SSH agent
 protocol (RFC 9987) and the userauth payload of section 7 of RFC 4252. Each wire form is
 given by its encoder; the parsers accept exactly what the encoders produce.
 */
module Keys {
  import opened Bytes
  import opened Frames
  import opened SshStrings
  import opened Text

  const IDENTITIES_ANSWER: byte := 12
  const SIGN_REQUEST: byte := 13

  /** A fingerprint stands for the digest of a key blob; the hash itself is not computed. */
  datatype Fingerprint = SHA256(blob: bytes)

  // ----- public key blobs -----

  predicate TypeName(t: bytes) {
    1 <= |t| <= 128 && forall i :: 0 <= i < |t| ==> 33 <= t[i] <= 126
  }

  /** A blob of key type t: the type as a string, then at least one more byte. */
  predicate IsKeyBlob(blob: bytes, t: bytes) {
    TypeName(t) && |blob| > 4 + |t| && blob[..4 + |t|] == EncodeString(t)
  }

  function KeyType(blob: bytes): (t: Option<bytes>)
    ensures t.Some? ==> IsKeyBlob(blob, t.value)
  {
    var taken := TakeString(blob);
    if taken.None? || !TypeName(taken.value.0) || taken.value.1 == [] then None
    else
      TakeStringExact(blob, taken.value.0, taken.value.1);
      Some(taken.value.0)
  }

  /** The type of a blob is found exactly when there is one, and it is the only one. */
  lemma KeyTypeExact(blob: bytes, t: bytes)
    ensures KeyType(blob) == Some(t) <==> IsKeyBlob(blob, t)
  {
    if IsKeyBlob(blob, t) {
      assert blob == blob[..4 + |t|] + blob[4 + |t|..];
      TakeStringExact(blob, t, blob[4 + |t|..]);
    }
  }

  /** publicKeyType: it succeeds exactly on key blobs. */
  method PublicKeyType(blob: bytes) returns (t: bytes, ok: bool)
    ensures ok <==> KeyType(blob).Some?
    ensures ok ==> KeyType(blob) == Some(t)
  {
    var cursor := new Cursor(blob);
    t, ok := cursor.Take();
    if !ok || |t| == 0 || |t| > 128 || |cursor.data| == 0 {
      return [], false;
    }
    var i := 0;
    while i < |t|
      invariant i <= |t| && forall j :: 0 <= j < i ==> 33 <= t[j] <= 126
    {
      if t[i] < 33 || t[i] > 126 {
        return [], false;
      }
      i := i + 1;
    }
    ok := true;
  }

  // ----- key lists -----

  datatype Entry = Entry(blob: bytes, comment: bytes)

  datatype Key = Key(keyType: bytes, fingerprint: Fingerprint, comment: bytes)

  predicate WellFormed(e: Entry) {
    |e.blob| < U32_LIMIT && |e.comment| < U32_LIMIT && KeyType(e.blob).Some?
  }

  predicate AllWellFormed(es: seq<Entry>) {
    forall i :: 0 <= i < |es| ==> WellFormed(es[i])
  }

  function EncodeEntry(e: Entry): bytes
    requires WellFormed(e)
  {
    EncodeString(e.blob) + EncodeString(e.comment)
  }

  function EncodeEntries(es: seq<Entry>): bytes
    requires AllWellFormed(es)
  {
    if es == [] then [] else EncodeEntry(es[0]) + EncodeEntries(es[1..])
  }

  function KeyOf(cf: set<Rune>, e: Entry): Key
    requires WellFormed(e)
  {
    Key(KeyType(e.blob).value, SHA256(e.blob),
        EncodeRunes(Displayed(cf, DecodeRunes(e.comment), 1024)))
  }

  /** The entry at the front of data, and what follows it. */
  function TakeEntry(data: bytes): (r: Option<(Entry, bytes)>)
    ensures r.Some? ==> WellFormed(r.value.0) && |r.value.1| + 8 <= |data|
  {
    var blob := TakeString(data);
    if blob.None? then None else
      var comment := TakeString(blob.value.1);
      if comment.None? || KeyType(blob.value.0).None? then None
      else Some((Entry(blob.value.0, comment.value.0), comment.value.1))
  }

  lemma TakeEntryExact(data: bytes, e: Entry, rest: bytes)
    requires WellFormed(e)
    ensures TakeEntry(data) == Some((e, rest)) <==> data == EncodeEntry(e) + rest
  {
    var tail := EncodeString(e.comment) + rest;
    assert EncodeEntry(e) + rest == EncodeString(e.blob) + tail;
    TakeStringExact(data, e.blob, tail);
    TakeStringExact(tail, e.comment, rest);
    if TakeEntry(data) == Some((e, rest)) {
      TakeStringExact(TakeString(data).value.1, e.comment, rest);
    }
  }

  /** Exactly n entries that use up all of the data. */
  function DecodeEntries(data: bytes, n: nat): (es: Option<seq<Entry>>)
    ensures es.Some? ==> |es.value| == n && 8 * n <= |data| && AllWellFormed(es.value)
    decreases n
  {
    if n == 0 then if data == [] then Some([]) else None
    else
      var first := TakeEntry(data);
      if first.None? then None else
        var rest := DecodeEntries(first.value.1, n - 1);
        if rest.None? then None else Some([first.value.0] + rest.value)
  }

  lemma {:induction false} DecodeEntriesExact(data: bytes, n: nat, es: seq<Entry>)
    requires AllWellFormed(es)
    ensures DecodeEntries(data, n) == Some(es) <==> |es| == n && data == EncodeEntries(es)
  {
    if n > 0 && |es| > 0 {
      var tail := EncodeEntries(es[1..]);
      TakeEntryExact(data, es[0], tail);
      var first := TakeEntry(data);
      if first.Some? {
        DecodeEntriesExact(first.value.1, n - 1, es[1..]);
        TakeEntryExact(data, first.value.0, first.value.1);
      }
      assert es == [es[0]] + es[1..];
    }
  }

  function KeyListPayload(es: seq<Entry>): bytes
    requires |es| < U32_LIMIT && AllWellFormed(es)
  {
    [IDENTITIES_ANSWER] + EncodeU32(|es|) + EncodeEntries(es)
  }

  /** The entries of an identities answer. */
  function DecodeKeyList(reply: bytes): (es: Option<seq<Entry>>)
    ensures es.Some? ==> |es.value| < U32_LIMIT && AllWellFormed(es.value)
  {
    if !ValidResponse(reply) || |reply| < 9 || reply[4] != IDENTITIES_ANSWER then None
    else DecodeEntries(reply[9..], DecodeU32(reply[5..9]))
  }

  /** A key list is accepted exactly when it is the framed encoding of well-formed entries. */
  lemma KeyListExact(reply: bytes, es: seq<Entry>)
    requires |es| < U32_LIMIT && AllWellFormed(es)
    ensures DecodeKeyList(reply) == Some(es) <==>
            |KeyListPayload(es)| <= MAX_RESPONSE_PAYLOAD && reply == Frame(KeyListPayload(es))
  {
    if ValidResponse(reply) && |reply| >= 9 && reply[4] == IDENTITIES_ANSWER {
      ValidFrameExact(reply, MAX_RESPONSE_PAYLOAD);
      EncodeOfDecode(reply[5..9]);
      DecodeEntriesExact(reply[9..], DecodeU32(reply[5..9]), es);
      assert reply[4..] == [IDENTITIES_ANSWER] + reply[5..9] + reply[9..];
    }
    if |KeyListPayload(es)| <= MAX_RESPONSE_PAYLOAD && reply == Frame(KeyListPayload(es)) {
      ValidFrameExact(reply, MAX_RESPONSE_PAYLOAD);
      assert reply[4..] == KeyListPayload(es);
      assert reply[5..9] == reply[4..][1..5] && reply[9..] == reply[4..][5..];
      DecodeOfEncode(|es|);
      DecodeEntriesExact(reply[9..], |es|, es);
    }
  }

  lemma HeadPrefixFree(e: Entry, u: bytes, x: bytes, f: Entry, v: bytes, y: bytes)
    requires WellFormed(e) && WellFormed(f)
    requires EncodeEntry(e) + u + x == EncodeEntry(f) + v + y
    ensures e == f && u + x == v + y
  {
    var data := EncodeEntry(e) + u + x;
    assert data == EncodeEntry(e) + (u + x) && data == EncodeEntry(f) + (v + y);
    TakeEntryExact(data, e, u + x);
    TakeEntryExact(data, f, v + y);
  }

  lemma {:induction false} EntriesPrefixFree(es: seq<Entry>, x: bytes, fs: seq<Entry>, y: bytes)
    requires AllWellFormed(es) && AllWellFormed(fs)
    requires |es| == |fs| && EncodeEntries(es) + x == EncodeEntries(fs) + y
    ensures es == fs && x == y
  {
    if es == [] {
      assert EncodeEntries(es) + x == x && EncodeEntries(fs) + y == y;
    } else {
      HeadPrefixFree(es[0], EncodeEntries(es[1..]), x, fs[0], EncodeEntries(fs[1..]), y);
      EntriesPrefixFree(es[1..], x, fs[1..], y);
      assert es == [es[0]] + es[1..] && fs == [fs[0]] + fs[1..];
    }
  }

  lemma PayloadParts(es: seq<Entry>, rest: bytes)
    requires |es| < U32_LIMIT && AllWellFormed(es)
    ensures var data := KeyListPayload(es) + rest;
            |data| >= 5 && DecodeU32(data[1..5]) == |es| && data[5..] == EncodeEntries(es) + rest
  {
    var data := KeyListPayload(es) + rest;
    assert data[1..5] == EncodeU32(|es|);
    DecodeOfEncode(|es|);
  }

  lemma PayloadPrefix(es: seq<Entry>, fs: seq<Entry>, rest: bytes)
    requires |es| < U32_LIMIT && AllWellFormed(es) && |fs| < U32_LIMIT && AllWellFormed(fs)
    requires KeyListPayload(es) + [] == KeyListPayload(fs) + rest
    ensures rest == []
  {
    PayloadParts(es, []);
    PayloadParts(fs, rest);
    EntriesPrefixFree(es, [], fs, rest);
  }

  /** No truncated list is accepted, even when it is framed again at its shorter length. */
  lemma TruncatedKeyListRejected(es: seq<Entry>, cut: nat)
    requires |es| < U32_LIMIT && AllWellFormed(es)
    requires cut < |KeyListPayload(es)| && cut < U32_LIMIT
    ensures DecodeKeyList(Frame(KeyListPayload(es)[..cut])).None?
  {
    var reply := Frame(KeyListPayload(es)[..cut]);
    var fs := DecodeKeyList(reply);
    if fs.Some? {
      KeyListExact(reply, fs.value);
      var payload := KeyListPayload(es);
      assert payload + [] == payload[..cut] + payload[cut..];
      PayloadPrefix(es, fs.value, payload[cut..]);
    }
  }

  /** One key per entry, in order. */
  predicate Matching(cf: set<Rune>, keys: seq<Key>, es: seq<Entry>) {
    && |keys| == |es| && AllWellFormed(es)
    && forall i {:trigger keys[i]} :: 0 <= i < |keys| ==> keys[i] == KeyOf(cf, es[i])
  }

  /** Entries already taken, followed by those to come. */
  function Resumed(es: seq<Entry>, more: Option<seq<Entry>>): Option<seq<Entry>> {
    if more.Some? then Some(es + more.value) else None
  }

  lemma ResumedTwice(es: seq<Entry>, next: seq<Entry>, more: Option<seq<Entry>>)
    ensures Resumed(es, Resumed(next, more)) == Resumed(es + next, more)
  {
    if more.Some? {
      assert es + (next + more.value) == es + next + more.value;
    }
  }

  lemma ResumedAtTheEnds(es: seq<Entry>, more: Option<seq<Entry>>)
    ensures Resumed([], more) == more && Resumed(es, Some([])) == Some(es)
  {
    assert es + [] == es;
    if more.Some? {
      assert [] + more.value == more.value;
    }
  }

  /** Taking the entry at the front of data, when there is one, leaves n more to come. */
  lemma OneMoreEntry(es: seq<Entry>, data: bytes, n: nat)
    ensures var first := TakeEntry(data);
            Resumed(es, DecodeEntries(data, n + 1)) ==
            if first.None? then None else Resumed(es + [first.value.0], DecodeEntries(first.value.1, n))
  {
    var first := TakeEntry(data);
    if first.Some? {
      ResumedTwice(es, [first.value.0], DecodeEntries(first.value.1, n));
    }
  }

  /** parseKeys: one key per entry, in order, and only for a well-formed list. */
  method ParseKeys(cf: set<Rune>, reply: bytes) returns (keys: seq<Key>, ok: bool)
    ensures ok <==> DecodeKeyList(reply).Some?
    ensures ok ==> var es := DecodeKeyList(reply).value;
                   |keys| == |es| && forall i :: 0 <= i < |es| ==> keys[i] == KeyOf(cf, es[i])
  {
    keys := [];
    if !ValidResponse(reply) || reply[4] == AGENT_FAILURE {
      return keys, false;
    }
    if reply[4] != IDENTITIES_ANSWER || |reply| < 9 {
      return keys, false;
    }
    var count := DecodeU32(reply[5..9]);
    var cursor := new Cursor(reply[9..]);
    if count > |cursor.data| / 8 {
      return keys, false;
    }
    keys, ok := ParseEntries(cf, cursor, count);
  }

  /** The loop of parseKeys and its check for trailing bytes. */
  method ParseEntries(cf: set<Rune>, cursor: Cursor, count: nat) returns (keys: seq<Key>, ok: bool)
    modifies cursor
    ensures ok <==> DecodeEntries(old(cursor.data), count).Some?
    ensures ok ==> Matching(cf, keys, DecodeEntries(old(cursor.data), count).value)
  {
    keys := [];
    ghost var goal := DecodeEntries(cursor.data, count);
    ghost var es: seq<Entry> := [];
    ResumedAtTheEnds([], goal);
    var left := count;
    while left > 0
      invariant Matching(cf, keys, es) && Resumed(es, DecodeEntries(cursor.data, left)) == goal
    {
      left := left - 1;
      OneMoreEntry(es, cursor.data, left);
      ghost var entry;
      keys, ok, entry := AppendKey(cf, cursor, keys, es);
      if !ok {
        return;
      }
      es := es + [entry];
      assert goal == Resumed(es, DecodeEntries(cursor.data, left));
    }
    ok := |cursor.data| == 0;
    ResumedAtTheEnds(es, None);
  }

  /** One turn of the loop: the key of the next entry is appended. */
  method AppendKey(cf: set<Rune>, cursor: Cursor, keys: seq<Key>, ghost es: seq<Entry>)
    returns (longer: seq<Key>, ok: bool, ghost entry: Entry)
    requires Matching(cf, keys, es)
    modifies cursor
    ensures ok <==> TakeEntry(old(cursor.data)).Some?
    ensures ok ==> TakeEntry(old(cursor.data)) == Some((entry, cursor.data)) && Matching(cf, longer, es + [entry])
  {
    longer, entry := keys, Entry([], []);
    var blob, comment, keyType, text;
    blob, ok := cursor.Take();
    if !ok {
      return;
    }
    comment, ok := cursor.Take();
    if !ok {
      return;
    }
    keyType, ok := PublicKeyType(blob);
    if !ok {
      return;
    }
    text := DisplayText(cf, comment, 1024);
    entry := Entry(blob, comment);
    longer := keys + [Key(keyType, SHA256(blob), text)];
  }

  // ----- userauth data -----

  const USERAUTH_REQUEST: byte := 50
  const SERVICE := "ssh-connection"
  const PUBLICKEY := "publickey"
  const HOSTBOUND := "publickey-hostbound-v00@openssh.com"

  /** The fields of section 7 of RFC 4252; OpenSSH's host-bound form also carries a host key. */
  datatype Userauth = Userauth(session: bytes, user: bytes, algorithm: bytes, hostKey: Option<bytes>)

  predicate Field(value: bytes) {
    1 <= |value| < U32_LIMIT
  }

  predicate WellFormedAuth(u: Userauth) {
    Field(u.session) && Field(u.user) && Field(u.algorithm) && (u.hostKey.Some? ==> Field(u.hostKey.value))
  }

  function Method(hostbound: bool): (m: bytes)
    ensures |m| < 100
  {
    if hostbound then Ascii(HOSTBOUND) else Ascii(PUBLICKEY)
  }

  /** Everything after the byte 1: algorithm, key, and the host key of the host-bound form. */
  function EncodeKeyPart(algorithm: bytes, key: bytes, hostKey: Option<bytes>): bytes
    requires Field(algorithm) && |key| < U32_LIMIT && (hostKey.Some? ==> Field(hostKey.value))
  {
    EncodeString(algorithm) + (EncodeString(key) + (if hostKey.Some? then EncodeString(hostKey.value) + [] else []))
  }

  /** Everything after the byte 50. */
  function EncodeUserPart(user: bytes, hostbound: bool, rest: bytes): bytes
    requires Field(user)
  {
    EncodeString(user) + (EncodeString(Ascii(SERVICE)) + (EncodeString(Method(hostbound)) + ([1] + rest)))
  }

  function EncodeUserauth(u: Userauth, key: bytes): bytes
    requires WellFormedAuth(u) && |key| < U32_LIMIT
  {
    EncodeString(u.session) + ([USERAUTH_REQUEST]
      + EncodeUserPart(u.user, u.hostKey.Some?, EncodeKeyPart(u.algorithm, key, u.hostKey)))
  }

  function TakeByte(data: bytes, b: byte): Option<bytes> {
    if data != [] && data[0] == b then Some(data[1..]) else None
  }

  /** A non-empty string at the front of data. */
  function TakeField(data: bytes): (r: Option<(bytes, bytes)>)
    ensures r.Some? ==> Field(r.value.0)
  {
    var r := TakeString(data);
    if r.Some? && r.value.0 != [] then r else None
  }

  lemma FieldFound(value: bytes, rest: bytes)
    requires Field(value)
    ensures TakeField(EncodeString(value) + rest) == Some((value, rest))
  {
    TakeStringExact(EncodeString(value) + rest, value, rest);
  }

  lemma ByteFound(b: byte, rest: bytes)
    ensures TakeByte([b] + rest, b) == Some(rest)
  {
  }

  lemma FieldOnly(data: bytes)
    requires TakeField(data).Some?
    ensures data == EncodeString(TakeField(data).value.0) + TakeField(data).value.1
  {
    TakeStringExact(data, TakeField(data).value.0, TakeField(data).value.1);
  }

  lemma StringOnly(data: bytes)
    requires TakeString(data).Some?
    ensures |TakeString(data).value.0| < U32_LIMIT
    ensures data == EncodeString(TakeString(data).value.0) + TakeString(data).value.1
  {
    TakeStringExact(data, TakeString(data).value.0, TakeString(data).value.1);
  }

  lemma ByteOnly(data: bytes, b: byte)
    requires TakeByte(data, b).Some?
    ensures data == [b] + TakeByte(data, b).value
  {
  }

  function RecogniseKeyPart(data: bytes, key: bytes, hostbound: bool): Option<(bytes, Option<bytes>)> {
    var algorithm := TakeField(data);
    if algorithm.None? then None else
      var embedded := TakeString(algorithm.value.1);
      if embedded.None? || embedded.value.0 != key then None
      else if !hostbound then
        if embedded.value.1 == [] then Some((algorithm.value.0, None)) else None
      else
        var host := TakeField(embedded.value.1);
        if host.Some? && host.value.1 == [] then Some((algorithm.value.0, Some(host.value.0))) else None
  }

  lemma KeyPartFound(algorithm: bytes, key: bytes, hostKey: Option<bytes>)
    requires Field(algorithm) && |key| < U32_LIMIT && (hostKey.Some? ==> Field(hostKey.value))
    ensures RecogniseKeyPart(EncodeKeyPart(algorithm, key, hostKey), key, hostKey.Some?) == Some((algorithm, hostKey))
  {
    var last := if hostKey.Some? then EncodeString(hostKey.value) + [] else [];
    var tail := EncodeString(key) + last;
    TakeStringExact(EncodeString(algorithm) + tail, algorithm, tail);
    TakeStringExact(tail, key, last);
    if hostKey.Some? {
      TakeStringExact(last, hostKey.value, []);
    }
  }

  lemma KeyPartOnly(data: bytes, key: bytes, hostbound: bool)
    requires RecogniseKeyPart(data, key, hostbound).Some?
    ensures var (algorithm, hostKey) := RecogniseKeyPart(data, key, hostbound).value;
            && Field(algorithm) && |key| < U32_LIMIT && hostKey.Some? == hostbound
            && (hostbound ==> Field(hostKey.value)) && data == EncodeKeyPart(algorithm, key, hostKey)
  {
    var algorithm := TakeField(data).value;
    var embedded := TakeString(algorithm.1).value;
    FieldOnly(data);
    StringOnly(algorithm.1);
    if hostbound {
      FieldOnly(embedded.1);
    }
  }

  function RecogniseUserPart(data: bytes): (r: Option<(bytes, bool, bytes)>)
    ensures r.Some? ==> Field(r.value.0)
  {
    var user := TakeField(data);
    if user.None? then None else
      var service := TakeString(user.value.1);
      if service.None? || service.value.0 != Ascii(SERVICE) then None else
        var m := RecogniseMethod(service.value.1);
        if m.None? then None else Some((user.value.0, m.value.0, m.value.1))
  }

  /** One of the two methods and the byte 1; whether it is the host-bound one, and what follows. */
  function RecogniseMethod(data: bytes): Option<(bool, bytes)> {
    var m := TakeString(data);
    if m.None? || (m.value.0 != Ascii(PUBLICKEY) && m.value.0 != Ascii(HOSTBOUND)) then None else
      var rest := TakeByte(m.value.1, 1);
      if rest.None? then None else Some((m.value.0 == Ascii(HOSTBOUND), rest.value))
  }

  lemma MethodsDiffer()
    ensures Ascii(PUBLICKEY) != Ascii(HOSTBOUND)
  {
    assert |Ascii(PUBLICKEY)| != |Ascii(HOSTBOUND)|;
  }

  lemma UserPartFound(user: bytes, hostbound: bool, rest: bytes)
    requires Field(user)
    ensures RecogniseUserPart(EncodeUserPart(user, hostbound, rest)) == Some((user, hostbound, rest))
  {
    MethodsDiffer();
    var three := [1] + rest;
    var two := EncodeString(Method(hostbound)) + three;
    var one := EncodeString(Ascii(SERVICE)) + two;
    TakeStringExact(EncodeUserPart(user, hostbound, rest), user, one);
    TakeStringExact(one, Ascii(SERVICE), two);
    TakeStringExact(two, Method(hostbound), three);
    assert three[1..] == rest;
  }

  lemma UserPartOnly(data: bytes)
    requires RecogniseUserPart(data).Some?
    ensures var (user, hostbound, rest) := RecogniseUserPart(data).value;
            data == EncodeUserPart(user, hostbound, rest)
  {
    var user := TakeField(data).value;
    var service := TakeString(user.1).value;
    var m := TakeString(service.1).value;
    FieldOnly(data);
    StringOnly(user.1);
    StringOnly(service.1);
    ByteOnly(m.1, 1);
  }

  /** The fields of userauth data that signs with `key`, None for any other data. */
  function Recognise(data: bytes, key: bytes): Option<Userauth> {
    var session := TakeField(data);
    if session.None? then None else
      var body := TakeByte(session.value.1, USERAUTH_REQUEST);
      if body.None? then None else
        var user := RecogniseUserPart(body.value);
        if user.None? then None else
          var keyPart := RecogniseKeyPart(user.value.2, key, user.value.1);
          if keyPart.None? then None
          else Some(Userauth(session.value.0, user.value.0, keyPart.value.0, keyPart.value.1))
  }

  lemma EncodedIsRecognised(u: Userauth, key: bytes)
    requires WellFormedAuth(u) && |key| < U32_LIMIT
    ensures Recognise(EncodeUserauth(u, key), key) == Some(u)
  {
    var keyPart := EncodeKeyPart(u.algorithm, key, u.hostKey);
    var userPart := EncodeUserPart(u.user, u.hostKey.Some?, keyPart);
    FieldFound(u.session, [USERAUTH_REQUEST] + userPart);
    ByteFound(USERAUTH_REQUEST, userPart);
    UserPartFound(u.user, u.hostKey.Some?, keyPart);
    KeyPartFound(u.algorithm, key, u.hostKey);
  }

  lemma RecognisedIsEncoded(data: bytes, key: bytes)
    requires Recognise(data, key).Some?
    ensures var u := Recognise(data, key).value;
            WellFormedAuth(u) && |key| < U32_LIMIT && data == EncodeUserauth(u, key)
  {
    var session := TakeField(data).value;
    var body := TakeByte(session.1, USERAUTH_REQUEST).value;
    var user := RecogniseUserPart(body).value;
    var keyPart := RecogniseKeyPart(user.2, key, user.1).value;
    FieldOnly(data);
    ByteOnly(session.1, USERAUTH_REQUEST);
    UserPartOnly(body);
    KeyPartOnly(user.2, key, user.1);
    assert Recognise(data, key) == Some(Userauth(session.0, user.0, keyPart.0, keyPart.1));
  }

  /** Data is recognised as these fields exactly when it is their encoding, and as no others. */
  lemma RecogniseExact(data: bytes, key: bytes, u: Userauth)
    requires WellFormedAuth(u) && |key| < U32_LIMIT
    ensures Recognise(data, key) == Some(u) <==> data == EncodeUserauth(u, key)
  {
    EncodedIsRecognised(u, key);
    if Recognise(data, key) == Some(u) {
      RecognisedIsEncoded(data, key);
    }
  }

  /** What the notification shows for a user name. */
  function ShownUser(cf: set<Rune>, user: bytes): bytes {
    EncodeRunes(Displayed(cf, DecodeRunes(user), 256))
  }

  lemma ShownUserIsNotEmpty(cf: set<Rune>, user: bytes)
    requires user != []
    ensures ShownUser(cf, user) != []
  {
    assert |Displayed(cf, DecodeRunes(user), 256)| > 0;
  }

  /** keys.go:119-132 */
  method TakeUserPart(cursor: Cursor) returns (user: bytes, hostbound: bool, ok: bool)
    modifies cursor
    ensures ok <==> RecogniseUserPart(old(cursor.data)).Some?
    ensures ok ==> RecogniseUserPart(old(cursor.data)) == Some((user, hostbound, cursor.data))
  {
    hostbound := false;
    var service;
    user, ok := cursor.Take();
    if !ok || |user| == 0 {
      return user, false, false;
    }
    service, ok := cursor.Take();
    if !ok || service != Ascii(SERVICE) {
      return user, false, false;
    }
    hostbound, ok := TakeMethod(cursor);
  }

  /** keys.go:125-132 */
  method TakeMethod(cursor: Cursor) returns (hostbound: bool, ok: bool)
    modifies cursor
    ensures ok <==> RecogniseMethod(old(cursor.data)).Some?
    ensures ok ==> RecogniseMethod(old(cursor.data)) == Some((hostbound, cursor.data))
  {
    var m;
    m, ok := cursor.Take();
    hostbound := m == Ascii(HOSTBOUND);
    if !ok || (m != Ascii(PUBLICKEY) && !hostbound) || |cursor.data| == 0 || cursor.data[0] != 1 {
      return hostbound, false;
    }
    cursor.data := cursor.data[1..];
  }

  /** keys.go:133-149 */
  method TakeKeyPart(cursor: Cursor, signingKey: bytes, hostbound: bool) returns (ok: bool)
    modifies cursor
    ensures ok <==> RecogniseKeyPart(old(cursor.data), signingKey, hostbound).Some?
  {
    var algorithm, key, hostKey;
    algorithm, ok := cursor.Take();
    if !ok || |algorithm| == 0 {
      return false;
    }
    key, ok := cursor.Take();
    if !ok || key != signingKey {
      return false;
    }
    if hostbound {
      hostKey, ok := cursor.Take();
      if !ok || |hostKey| == 0 {
        return false;
      }
    }
    ok := |cursor.data| == 0;
  }

  /** userauthUsername: a name exactly for userauth data that signs with this key. */
  method UserauthUsername(cf: set<Rune>, data: bytes, signingKey: bytes) returns (name: bytes)
    ensures name != [] <==> Recognise(data, signingKey).Some?
    ensures name != [] ==> name == ShownUser(cf, Recognise(data, signingKey).value.user)
  {
    var cursor := new Cursor(data);
    var session, username, hostbound, ok;
    session, ok := cursor.Take();
    if !ok || |session| == 0 || |cursor.data| == 0 || cursor.data[0] != USERAUTH_REQUEST {
      return [];
    }
    cursor.data := cursor.data[1..];
    username, hostbound, ok := TakeUserPart(cursor);
    if !ok {
      return [];
    }
    ok := TakeKeyPart(cursor, signingKey, hostbound);
    if !ok {
      return [];
    }
    name := DisplayText(cf, username, 256);
    ShownUserIsNotEmpty(cf, username);
  }

  // ----- sign requests -----

  datatype Signing = Signing(blob: bytes, data: bytes, flags: bytes)

  datatype SignRequest = SignRequest(keyType: bytes, fingerprint: Fingerprint, username: bytes)

  predicate WellFormedSigning(s: Signing) {
    |s.blob| < U32_LIMIT && |s.data| < U32_LIMIT && |s.flags| == 4 && KeyType(s.blob).Some?
  }

  function SigningPayload(s: Signing): bytes
    requires WellFormedSigning(s)
  {
    [SIGN_REQUEST] + (EncodeString(s.blob) + (EncodeString(s.data) + s.flags))
  }

  /** The parts of the payload of a sign request. */
  function DecodeSigningPayload(payload: bytes): (s: Option<Signing>)
    ensures s.Some? ==> WellFormedSigning(s.value)
  {
    var body := TakeByte(payload, SIGN_REQUEST);
    if body.None? then None else
      var blob := TakeString(body.value);
      if blob.None? then None else
        var data := TakeString(blob.value.1);
        if data.None? || |data.value.1| != 4 || KeyType(blob.value.0).None? then None
        else Some(Signing(blob.value.0, data.value.0, data.value.1))
  }

  function DecodeSigning(frame: bytes): (s: Option<Signing>)
    ensures s.Some? ==> WellFormedSigning(s.value)
  {
    if ValidRequest(frame) then DecodeSigningPayload(frame[4..]) else None
  }

  lemma SigningPayloadExact(payload: bytes, s: Signing)
    requires WellFormedSigning(s)
    ensures DecodeSigningPayload(payload) == Some(s) <==> payload == SigningPayload(s)
  {
    var tail := EncodeString(s.data) + s.flags;
    var body := EncodeString(s.blob) + tail;
    TakeStringExact(body, s.blob, tail);
    TakeStringExact(tail, s.data, s.flags);
    if payload == SigningPayload(s) {
      assert payload[1..] == body;
    }
    if DecodeSigningPayload(payload) == Some(s) {
      var blob := TakeString(payload[1..]).value;
      TakeStringExact(payload[1..], s.blob, blob.1);
      TakeStringExact(blob.1, s.data, s.flags);
      assert payload == [SIGN_REQUEST] + payload[1..];
    }
  }

  /** A sign request is accepted exactly when it is the framed encoding of its parts, in bounds. */
  lemma SigningExact(frame: bytes, s: Signing)
    requires WellFormedSigning(s)
    ensures DecodeSigning(frame) == Some(s) <==>
            |SigningPayload(s)| <= MAX_REQUEST_PAYLOAD && frame == Frame(SigningPayload(s))
  {
    ValidFrameExact(frame, MAX_REQUEST_PAYLOAD);
    if ValidRequest(frame) {
      SigningPayloadExact(frame[4..], s);
    }
    if |SigningPayload(s)| <= MAX_REQUEST_PAYLOAD && frame == Frame(SigningPayload(s)) {
      FrameIsRequest(SigningPayload(s));
      SigningPayloadExact(frame[4..], s);
    }
  }

  /** Every proper truncation of an accepted sign request is rejected. */
  lemma TruncatedSigningRejected(frame: bytes, cut: nat)
    requires DecodeSigning(frame).Some? && cut < |frame|
    ensures DecodeSigning(frame[..cut]).None?
  {
    TruncatedFrameInvalid(frame, cut, MAX_REQUEST_PAYLOAD);
  }

  lemma SigningPayloadPrefix(s: Signing, t: Signing, rest: bytes)
    requires WellFormedSigning(s) && WellFormedSigning(t)
    requires SigningPayload(s) == SigningPayload(t) + rest
    ensures rest == []
  {
    var sTail := EncodeString(s.data) + s.flags;
    var tTail := EncodeString(t.data) + (t.flags + rest);
    assert SigningPayload(s)[1..] == EncodeString(s.blob) + sTail;
    assert SigningPayload(t) + rest == [SIGN_REQUEST] + (EncodeString(t.blob) + tTail);
    assert (SigningPayload(t) + rest)[1..] == EncodeString(t.blob) + tTail;
    EncodeStringPrefixFree(s.blob, sTail, t.blob, tTail);
    EncodeStringPrefixFree(s.data, s.flags, t.data, t.flags + rest);
  }

  /** No truncated payload is accepted either, even when it is framed again at its shorter length. */
  lemma ReframedSigningRejected(s: Signing, cut: nat)
    requires WellFormedSigning(s) && cut < |SigningPayload(s)| && cut < U32_LIMIT
    ensures DecodeSigning(Frame(SigningPayload(s)[..cut])).None?
  {
    var payload := SigningPayload(s);
    var t := DecodeSigning(Frame(payload[..cut]));
    if t.Some? {
      SigningPayloadExact(payload[..cut], t.value);
      assert payload == payload[..cut] + payload[cut..];
      SigningPayloadPrefix(s, t.value, payload[cut..]);
    }
  }

  /**
   ParseSignRequest: accepted exactly when it decodes, with the type and fingerprint of the
   key, and a user name exactly when the signed data is userauth data for that same key.
   */
  method ParseSignRequest(cf: set<Rune>, frame: bytes) returns (r: SignRequest, ok: bool)
    ensures ok <==> DecodeSigning(frame).Some?
    ensures ok ==>
              var s := DecodeSigning(frame).value;
              var u := Recognise(s.data, s.blob);
              && Some(r.keyType) == KeyType(s.blob) && r.fingerprint == SHA256(s.blob)
              && (r.username != [] <==> u.Some?)
              && (u.Some? ==> r.username == ShownUser(cf, u.value.user))
  {
    r := SignRequest([], SHA256([]), []);
    if !ValidRequest(frame) || frame[4] != SIGN_REQUEST {
      return r, false;
    }
    assert frame[4..][1..] == frame[5..];
    var cursor := new Cursor(frame[5..]);
    var blob, data, keyType, username;
    blob, ok := cursor.Take();
    if !ok {
      return r, false;
    }
    data, ok := cursor.Take();
    if !ok || |cursor.data| != 4 {
      return r, false;
    }
    keyType, ok := PublicKeyType(blob);
    if !ok {
      return r, false;
    }
    username := UserauthUsername(cf, data, blob);
    r := SignRequest(keyType, SHA256(blob), username);
  }
}
