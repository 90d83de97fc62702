/**
 Attribution of a signing process to a network endpoint (pageant/client_windows.go:430-511).
 The table is the reply of GetExtendedTcpTable: a little-endian row count, then rows.
 */
module TcpTable {
  import opened Bytes

  datatype Family = Inet | Inet6 | OtherFamily

  /** Where one row keeps its fields. */
  datatype Layout = Layout(rowSize: nat, state: nat, pid: nat)

  function LayoutOf(family: Family): Layout {
    match family
    case Inet => Layout(24, 0, 20)
    case _ => Layout(56, 48, 52)
  }

  /** The text form of addresses: net.IP.String, and the suffix "%n" of a scope. */
  datatype Naming = Naming(ip: bytes -> bytes, scope: nat -> bytes)

  datatype Target = Target(host: bytes, port: nat)

  const ESTABLISHED := 5

  function Count(buffer: bytes): nat
    requires |buffer| >= 4
  {
    DecodeU32LE(buffer[..4])
  }

  /** Where row i starts, and row i - 1 ends. */
  function RowStart(family: Family, i: nat): nat {
    if family.Inet? then 4 + 24 * i else 4 + 56 * i
  }

  /** All the rows that the table declares lie inside it. */
  predicate RowsFit(buffer: bytes, family: Family) {
    !family.OtherFamily? && |buffer| >= 4 && RowStart(family, Count(buffer)) <= |buffer|
  }

  function Row(buffer: bytes, family: Family, i: nat): (row: bytes)
    requires RowsFit(buffer, family) && i < Count(buffer)
    ensures |row| == LayoutOf(family).rowSize
  {
    buffer[RowStart(family, i)..RowStart(family, i + 1)]
  }

  /** An established connection of this process. */
  predicate Owned(row: bytes, family: Family, pid: nat)
    requires |row| == LayoutOf(family).rowSize
  {
    var l := LayoutOf(family);
    DecodeU32LE(row[l.state..l.state + 4]) == ESTABLISHED && DecodeU32LE(row[l.pid..l.pid + 4]) == pid
  }

  function TargetOf(naming: Naming, row: bytes, family: Family): Target
    requires |row| == LayoutOf(family).rowSize
  {
    match family
    case Inet => Target(naming.ip(row[12..16]), row[16] as int * 256 + row[17])
    case _ =>
      var scope := DecodeU32LE(row[40..44]);
      Target(naming.ip(row[24..40]) + (if scope != 0 then naming.scope(scope) else []), row[44] as int * 256 + row[45])
  }

  /** The connection a row contributes, if any. */
  function Contribution(naming: Naming, row: bytes, family: Family, pid: nat): (c: seq<Target>)
    requires |row| == LayoutOf(family).rowSize
    ensures |c| <= 1
  {
    if Owned(row, family, pid) && TargetOf(naming, row, family).port != 0 then [TargetOf(naming, row, family)] else []
  }

  /** What each of the first n rows contributes. */
  function Contributions(naming: Naming, buffer: bytes, family: Family, pid: nat, n: nat): (cs: seq<seq<Target>>)
    requires RowsFit(buffer, family) && n <= Count(buffer)
    ensures |cs| == n
    ensures forall i :: 0 <= i < n ==> cs[i] == Contribution(naming, Row(buffer, family, i), family, pid)
  {
    if n == 0 then [] else
      Contributions(naming, buffer, family, pid, n - 1)
      + [Contribution(naming, Row(buffer, family, n - 1), family, pid)]
  }

  function Flatten(cs: seq<seq<Target>>): seq<Target> {
    if cs == [] then [] else Flatten(cs[..|cs| - 1]) + cs[|cs| - 1]
  }

  /** The targets of all rows, in row order. */
  function Projection(naming: Naming, buffer: bytes, family: Family, pid: nat): seq<Target>
    requires RowsFit(buffer, family)
  {
    Flatten(Contributions(naming, buffer, family, pid, Count(buffer)))
  }

  lemma {:induction false} InFlatten(cs: seq<seq<Target>>, t: Target)
    ensures t in Flatten(cs) <==> exists i :: 0 <= i < |cs| && t in cs[i]
  {
    if cs != [] {
      var before := cs[..|cs| - 1];
      InFlatten(before, t);
      assert forall i :: 0 <= i < |before| ==> before[i] == cs[i];
    }
  }

  /** Row i belongs to an established connection of this process, to target t. */
  predicate Carries(naming: Naming, row: bytes, family: Family, pid: nat, t: Target)
    requires |row| == LayoutOf(family).rowSize
  {
    t.port != 0 && Owned(row, family, pid) && TargetOf(naming, row, family) == t
  }

  lemma ContributionExact(naming: Naming, row: bytes, family: Family, pid: nat, t: Target)
    requires |row| == LayoutOf(family).rowSize
    ensures t in Contribution(naming, row, family, pid) <==> Carries(naming, row, family, pid, t)
  {
  }

  /** A target is reported exactly when some row carries it. */
  lemma ProjectionExact(naming: Naming, buffer: bytes, family: Family, pid: nat, t: Target)
    requires RowsFit(buffer, family)
    ensures t in Projection(naming, buffer, family, pid) <==>
            exists i: nat :: i < Count(buffer) && Carries(naming, Row(buffer, family, i), family, pid, t)
  {
    var cs := Contributions(naming, buffer, family, pid, Count(buffer));
    InFlatten(cs, t);
    forall i: nat | i < Count(buffer)
      ensures t in cs[i] <==> Carries(naming, Row(buffer, family, i), family, pid, t)
    {
      ContributionExact(naming, Row(buffer, family, i), family, pid, t);
    }
  }

  lemma ContributionsSnoc(naming: Naming, buffer: bytes, family: Family, pid: nat, n: nat)
    requires RowsFit(buffer, family) && n < Count(buffer)
    ensures Flatten(Contributions(naming, buffer, family, pid, n + 1)) ==
            Flatten(Contributions(naming, buffer, family, pid, n))
            + Contribution(naming, Row(buffer, family, n), family, pid)
  {
    var cs := Contributions(naming, buffer, family, pid, n + 1);
    assert cs[..n] == Contributions(naming, buffer, family, pid, n);
  }

  /** The body of the row loop. */
  method ReadRow(naming: Naming, row: bytes, pid: nat, family: Family) returns (found: seq<Target>)
    requires |row| == LayoutOf(family).rowSize && !family.OtherFamily?
    ensures found == Contribution(naming, row, family, pid)
  {
    var stateOffset, pidOffset := 0, 20;
    if family.Inet6? {
      stateOffset, pidOffset := 48, 52;
    }
    if DecodeU32LE(row[stateOffset..stateOffset + 4]) != ESTABLISHED
       || DecodeU32LE(row[pidOffset..pidOffset + 4]) != pid
    {
      return [];
    }
    var target;
    if family.Inet? {
      target := Target(naming.ip(row[12..16]), row[16] as int * 256 + row[17]);
    } else {
      target := Target(naming.ip(row[24..40]), row[44] as int * 256 + row[45]);
      var scope := DecodeU32LE(row[40..44]);
      if scope != 0 {
        target := target.(host := target.host + naming.scope(scope));
      } else {
        assert target.host + [] == target.host;
      }
    }
    return if target.port != 0 then [target] else [];
  }

  /** The early check on the count is exact: it rejects a table just when its rows do not fit. */
  lemma CountCheckIsExact(family: Family, count: nat, length: nat)
    requires length >= 4 && !family.OtherFamily?
    ensures count <= (length - 4) / LayoutOf(family).rowSize <==> RowStart(family, count) <= length
  {
    if family.Inet? {
      assert count <= (length - 4) / 24 <==> 24 * count <= length - 4;
    } else {
      assert count <= (length - 4) / 56 <==> 56 * count <= length - 4;
    }
  }

  /** parseTCPTable: it never reads outside the buffer, whatever count the table declares. */
  method ParseTCPTable(naming: Naming, buffer: bytes, pid: nat, family: Family) returns (result: seq<Target>, ok: bool)
    ensures ok <==> RowsFit(buffer, family)
    ensures ok ==> result == Projection(naming, buffer, family, pid)
  {
    result := [];
    var rowSize := 24;
    if family.Inet6? {
      rowSize := 56;
    } else if !family.Inet? {
      return result, false;
    }
    if |buffer| < 4 {
      return result, false;
    }
    var count := DecodeU32LE(buffer[..4]);
    CountCheckIsExact(family, count, |buffer|);
    if count > (|buffer| - 4) / rowSize {
      return result, false;
    }
    result := ReadRows(naming, buffer, count, pid, family);
    ok := true;
  }

  /** The loop over the rows, each within the buffer. */
  method ReadRows(naming: Naming, buffer: bytes, count: nat, pid: nat, family: Family) returns (result: seq<Target>)
    requires RowsFit(buffer, family) && count == Count(buffer)
    ensures result == Projection(naming, buffer, family, pid)
  {
    result := [];
    var i := 0;
    while i < count
      invariant i <= count
      invariant result == Flatten(Contributions(naming, buffer, family, pid, i))
    {
      var found := ReadRow(naming, Row(buffer, family, i), pid, family);
      ContributionsSnoc(naming, buffer, family, pid, i);
      result := result + found;
      i := i + 1;
    }
  }

  // ----- the unique endpoint -----

  /** All of ts has the same address string as t, which is one of them. */
  ghost predicate OneAddress(join: Target -> bytes, ts: seq<Target>, t: Target) {
    t in ts && forall u :: u in ts ==> join(u) == join(t)
  }

  /** JoinHostPort tells apart the endpoints of `ts`. */
  ghost predicate TellsApart(join: Target -> bytes, ts: seq<Target>) {
    forall a, b :: a in ts && b in ts && join(a) == join(b) ==> a == b
  }

  /** t is the one endpoint of ts. */
  ghost predicate Only(ts: seq<Target>, t: Target) {
    forall u :: u in ts <==> u == t
  }

  /** With an injective address string, one address is one endpoint. */
  lemma OneAddressIsOneEndpoint(join: Target -> bytes, ts: seq<Target>, t: Target)
    requires TellsApart(join, ts)
    ensures OneAddress(join, ts, t) <==> Only(ts, t)
  {
    if Only(ts, t) {
      assert t in ts;
    }
  }

  ghost predicate Indexes(all: map<bytes, Target>, join: Target -> bytes, ts: seq<Target>) {
    && (forall t :: t in ts ==> join(t) in all)
    && (forall k :: k in all ==> all[k] in ts && join(all[k]) == k)
  }

  method Collect(join: Target -> bytes, all: map<bytes, Target>, entries: seq<Target>, ghost before: seq<Target>)
    returns (now: map<bytes, Target>)
    requires Indexes(all, join, before)
    ensures Indexes(now, join, before + entries)
  {
    now := all;
    var i := 0;
    assert before + entries[..0] == before;
    while i < |entries|
      invariant i <= |entries| && Indexes(now, join, before + entries[..i])
    {
      now := now[join(entries[i]) := entries[i]];
      assert before + entries[..i + 1] == before + entries[..i] + [entries[i]];
      i := i + 1;
    }
    assert before + entries[..|entries|] == before + entries;
  }

  /**
   uniqueTCPTarget: each family is what processTCPTargets gave for it, None when it could not
   be read. A target is found exactly when both were read and all endpoints have one address.
   */
  method UniqueTCPTarget(join: Target -> bytes, v4: Option<seq<Target>>, v6: Option<seq<Target>>)
    returns (target: Target, ok: bool)
    ensures ok ==> v4.Some? && v6.Some? && OneAddress(join, v4.value + v6.value, target)
    ensures !ok ==> v4.None? || v6.None? || forall t :: !OneAddress(join, v4.value + v6.value, t)
  {
    target := Target([], 0);
    if v4.None? {
      return target, false;
    }
    var all := Collect(join, map[], v4.value, []);
    if v6.None? {
      return target, false;
    }
    assert [] + v4.value == v4.value;
    all := Collect(join, all, v6.value, v4.value);
    ghost var ts := v4.value + v6.value;
    if |all| != 1 {
      forall t | OneAddress(join, ts, t)
        ensures false
      {
        OneKey(join, all, ts, t);
      }
      return target, false;
    }
    var key :| key in all;
    target := all[key];
    ok := true;
    OneEntry(join, all, ts, key);
  }

  /** A table with a single key has a single address. */
  lemma OneEntry(join: Target -> bytes, all: map<bytes, Target>, ts: seq<Target>, key: bytes)
    requires Indexes(all, join, ts) && |all| == 1 && key in all
    ensures OneAddress(join, ts, all[key])
  {
    assert |all.Keys - {key}| == 0;
    forall t | t in ts
      ensures join(t) == join(all[key])
    {
      assert join(t) in all.Keys;
      assert join(t) == key;
    }
  }

  /** A single address makes a table with a single key. */
  lemma OneKey(join: Target -> bytes, all: map<bytes, Target>, ts: seq<Target>, t: Target)
    requires Indexes(all, join, ts) && OneAddress(join, ts, t)
    ensures |all| == 1
  {
    assert t in ts;
    assert all.Keys == {join(t)};
  }
}
