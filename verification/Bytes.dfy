/** Bytes, 32-bit integers in both byte orders, and concatenation. */
module Bytes {

  datatype Option<+T> = None | Some(value: T)

  type byte = i: int | 0 <= i < 256
  type bytes = seq<byte>

  const U32_LIMIT := 0x1_0000_0000

  /** `binary.BigEndian.PutUint32`. */
  function EncodeU32(n: nat): (b: bytes)
    requires n < U32_LIMIT
    ensures |b| == 4
  {
    var hi := n / 256;
    var hihi := hi / 256;
    [hihi / 256, hihi % 256, hi % 256, n % 256]
  }

  /** `binary.BigEndian.Uint32`. */
  function DecodeU32(b: bytes): (n: nat)
    requires |b| == 4
    ensures n < U32_LIMIT
  {
    BigEndianBound(b);
    BigEndian(b)
  }

  function BigEndian(b: bytes): nat {
    if b == [] then 0 else BigEndian(b[..|b| - 1]) * 256 + b[|b| - 1]
  }

  /** The number of four bytes, written out. */
  lemma BigEndianOfFour(b: bytes)
    requires |b| == 4
    ensures BigEndian(b) == ((b[0] as int * 256 + b[1]) * 256 + b[2]) * 256 + b[3]
  {
    assert b[..3][..2] == b[..2] && b[..2][..1] == b[..1] && b[..1][..0] == [];
    assert BigEndian(b[..1]) == b[0];
    assert BigEndian(b[..2]) == b[0] as int * 256 + b[1];
    assert BigEndian(b[..3]) == (b[0] as int * 256 + b[1]) * 256 + b[2];
  }

  lemma BigEndianBound(b: bytes)
    requires |b| == 4
    ensures BigEndian(b) < U32_LIMIT
  {
    BigEndianOfFour(b);
  }

  /** `binary.LittleEndian.Uint32`. */
  function DecodeU32LE(b: bytes): (n: nat)
    requires |b| == 4
    ensures n < U32_LIMIT
  {
    ((b[3] as int * 256 + b[2]) * 256 + b[1]) * 256 + b[0]
  }

  /** The two directions undo each other: big-endian words are exactly the 32-bit numbers. */
  lemma DecodeOfEncode(n: nat)
    requires n < U32_LIMIT
    ensures DecodeU32(EncodeU32(n)) == n
  {
    BigEndianOfFour(EncodeU32(n));
  }

  lemma EncodeOfDecode(b: bytes)
    requires |b| == 4
    ensures EncodeU32(DecodeU32(b)) == b
  {
    BigEndianOfFour(b);
    var hihi := b[0] as int * 256 + b[1];
    var hi := hihi * 256 + b[2];
    assert hihi / 256 == b[0] && hihi % 256 == b[1];
    assert hi / 256 == hihi && hi % 256 == b[2];
    assert DecodeU32(b) / 256 == hi && DecodeU32(b) % 256 == b[3];
  }

  /** A 32-bit word has its most significant byte first, in both directions. */
  lemma WordExact(b: bytes, n: nat)
    requires |b| == 4 && n < 0x1_0000_0000
    ensures var value := b[0] as int * 16777216 + b[1] as int * 65536 + b[2] as int * 256 + b[3] as int;
            (DecodeU32(b) == n <==> n == value) && (EncodeU32(n) == b <==> n == value)
  {
    BigEndianOfFour(b);
    DecodeOfEncode(n);
    EncodeOfDecode(b);
  }

  /** In the TCP table it has the least significant byte first. */
  lemma LittleWordExact(b: bytes)
    requires |b| == 4
    ensures DecodeU32LE(b) == b[0] as int + b[1] as int * 256 + b[2] as int * 65536 + b[3] as int * 16777216
  {
  }

  /** Equal words have equal values, and the other way round. */
  lemma SameWord(a: bytes, b: bytes)
    requires |a| == |b| == 4
    ensures DecodeU32(a) == DecodeU32(b) <==> a == b
  {
    EncodeOfDecode(a);
    EncodeOfDecode(b);
  }

  function Concat(parts: seq<bytes>): bytes {
    if parts == [] then [] else parts[0] + Concat(parts[1..])
  }

  lemma ConcatCons(x: bytes, ys: seq<bytes>)
    ensures Concat([x] + ys) == x + Concat(ys)
  {
    assert ([x] + ys)[1..] == ys;
  }

  lemma {:induction false} ConcatAppend(xs: seq<bytes>, ys: seq<bytes>)
    ensures Concat(xs + ys) == Concat(xs) + Concat(ys)
  {
    if xs == [] {
      assert xs + ys == ys;
    } else {
      assert (xs + ys)[1..] == xs[1..] + ys;
      ConcatAppend(xs[1..], ys);
    }
  }

  lemma ConcatOne(x: bytes)
    ensures Concat([x]) == x
  {
    assert Concat([x]) == x + Concat([]);
  }

  /** Appending one part appends its bytes. */
  lemma ConcatSnoc(xs: seq<bytes>, x: bytes)
    ensures Concat(xs + [x]) == Concat(xs) + x
  {
    ConcatAppend(xs, [x]);
    ConcatOne(x);
  }

  lemma ConcatNext(xs: seq<bytes>, k: nat)
    requires k < |xs|
    ensures Concat(xs[..k + 1]) == Concat(xs[..k]) + xs[k]
  {
    assert xs[..k + 1] == xs[..k] + [xs[k]];
    ConcatSnoc(xs[..k], xs[k]);
  }

  /** A prefix of the parts is a prefix of the bytes. */
  lemma ConcatPrefix(xs: seq<bytes>, ys: seq<bytes>)
    requires xs <= ys
    ensures Concat(xs) <= Concat(ys)
  {
    ConcatAppend(xs, ys[|xs|..]);
    assert xs + ys[|xs|..] == ys;
  }

  lemma Rejoined(stream: bytes, k: nat, n: nat)
    requires k <= n <= |stream|
    ensures stream[..k] + stream[k..n] == stream[..n]
    ensures n == |stream| ==> stream[..k] + stream[k..] == stream
  {
  }

  /** Writing a chunk behind a and g leaves what follows it as it was. */
  lemma Spliced(a: bytes, g: bytes, o: bytes, n: nat, chunk: bytes)
    requires |a| + |g| == n && n + |chunk| <= |o|
    ensures var w := a + g + o[n..];
            w[..n] + chunk + w[n + |chunk|..] == a + (g + chunk) + o[n + |chunk|..]
  {
    var w := a + g + o[n..];
    assert w[..n] == a + g;
    assert w[n + |chunk|..] == o[n + |chunk|..];
  }

  lemma Regrouped(a: bytes, b: bytes, c: bytes)
    ensures a + (b + c) == (a + b) + c
  {
  }

  lemma PrefixGrows(a: bytes, f: bytes, s: bytes)
    requires a <= s && f <= s[|a|..]
    ensures a + f <= s
  {
    Rejoined(s, |a|, |s|);
    Rejoined(s[|a|..], |f|, |s| - |a|);
    Regrouped(a, f, s[|a|..][|f|..]);
  }

  lemma BehindHead(s: bytes, a: bytes, b: bytes)
    requires a + b <= s
    ensures s[|a|..] == b + s[|a| + |b|..]
  {
  }

  lemma Slices(s: bytes, k: nat, n: nat)
    requires k + n <= |s|
    ensures s[k..][..n] == s[k..k + n] && s[k..][n..] == s[k + n..]
  {
  }

  /** The next k bytes of a stream, behind the m already read. */
  lemma NextChunk(stream: bytes, m: nat, k: nat)
    requires m + k <= |stream|
    ensures stream[..m] + stream[m..][..k] == stream[..m + k] && stream[m..][k..] == stream[m + k..]
  {
  }
}
