/**
 The table that GetExtendedTcpTable fills in, written out field by field for both families,
 and what is reported of it.
 */
module TableForms {
  import opened Bytes
  import opened TcpTable

  /** A word, least significant byte first. */
  function LittleWord(n: nat): bytes
    requires n < 0x1_0000_0000
  {
    [n % 256, n / 256 % 256, n / 65536 % 256, n / 16777216]
  }

  lemma LittleWordIs(n: nat)
    requires n < 0x1_0000_0000
    ensures DecodeU32LE(LittleWord(n)) == n
  {
    var (a, b, c) := (n / 256, n / 65536, n / 16777216);
    assert b == a / 256 && c == b / 256;
    LittleWordExact(LittleWord(n));
  }

  /**
   One connection: its state, what stands of the local side, the remote address, its scope and
   port, the two bytes that fill up the port's word, and the owner.
   */
  datatype Conn = Conn(state: nat, here: bytes, remote: bytes, scope: nat, port: nat, filler: bytes, pid: nat)

  predicate Fits(family: Family, c: Conn) {
    && c.state < 0x1_0000_0000 && c.scope < 0x1_0000_0000 && c.pid < 0x1_0000_0000
    && c.port < 65536 && |c.filler| == 2
    && match family
       case Inet => |c.here| == 8 && |c.remote| == 4
       case Inet6 => |c.here| == 24 && |c.remote| == 16
       case OtherFamily => false
  }

  /** MIB_TCPROW_OWNER_PID and MIB_TCP6ROW_OWNER_PID. */
  function RowBytes(family: Family, c: Conn): (row: bytes)
    requires Fits(family, c)
    ensures |row| == if family.Inet? then 24 else 56
  {
    var port := [c.port / 256, c.port % 256] + c.filler;
    if family.Inet? then LittleWord(c.state) + (c.here + (c.remote + (port + LittleWord(c.pid))))
    else c.here + (c.remote + (LittleWord(c.scope) + (port + (LittleWord(c.state) + LittleWord(c.pid)))))
  }

  predicate AllFit(family: Family, cs: seq<Conn>) {
    forall i :: 0 <= i < |cs| ==> Fits(family, cs[i])
  }

  function Rows(family: Family, cs: seq<Conn>): (rows: bytes)
    requires AllFit(family, cs)
    ensures |rows| == if family.Inet? then 24 * |cs| else 56 * |cs|
  {
    if cs == [] then [] else Rows(family, cs[..|cs| - 1]) + RowBytes(family, cs[|cs| - 1])
  }

  /** The number of rows, the rows, and whatever the buffer holds behind them. */
  function TableBytes(family: Family, cs: seq<Conn>, rest: bytes): bytes
    requires AllFit(family, cs) && |cs| < 0x1_0000_0000
  {
    LittleWord(|cs|) + (Rows(family, cs) + rest)
  }

  /** An established connection (state 5) of the process to a port other than 0 is reported. */
  function Reported(naming: Naming, family: Family, pid: nat, c: Conn): seq<Target> {
    if c.state == 5 && c.pid == pid && c.port != 0 then
      [Target(naming.ip(c.remote) + (if family.Inet6? && c.scope != 0 then naming.scope(c.scope) else []), c.port)]
    else []
  }

  function AllReported(naming: Naming, family: Family, pid: nat, cs: seq<Conn>): seq<Target> {
    if cs == [] then []
    else AllReported(naming, family, pid, cs[..|cs| - 1]) + Reported(naming, family, pid, cs[|cs| - 1])
  }

  lemma InetRowIs(naming: Naming, pid: nat, c: Conn)
    requires Fits(Inet, c)
    ensures var row := RowBytes(Inet, c);
            && row[0..4] == LittleWord(c.state) && row[12..16] == c.remote
            && row[16] == c.port / 256 && row[17] == c.port % 256 && row[20..24] == LittleWord(c.pid)
  {
  }

  lemma Inet6RowIs(naming: Naming, pid: nat, c: Conn)
    requires Fits(Inet6, c)
    ensures var row := RowBytes(Inet6, c);
            && row[48..52] == LittleWord(c.state) && row[24..40] == c.remote && row[40..44] == LittleWord(c.scope)
            && row[44] == c.port / 256 && row[45] == c.port % 256 && row[52..56] == LittleWord(c.pid)
  {
  }

  lemma RowContributes(naming: Naming, family: Family, pid: nat, c: Conn)
    requires Fits(family, c)
    ensures |RowBytes(family, c)| == LayoutOf(family).rowSize
    ensures Contribution(naming, RowBytes(family, c), family, pid) == Reported(naming, family, pid, c)
  {
    LittleWordIs(c.state);
    LittleWordIs(c.pid);
    LittleWordIs(c.scope);
    assert c.port / 256 * 256 + c.port % 256 == c.port;
    if family.Inet? {
      InetRowIs(naming, pid, c);
      assert naming.ip(c.remote) + [] == naming.ip(c.remote);
    } else {
      Inet6RowIs(naming, pid, c);
    }
  }

  function Size(family: Family, n: nat): nat {
    if family.Inet? then 24 * n else 56 * n
  }

  /** The row of connection i, between those before it and those behind. */
  lemma {:induction false} RowsHold(family: Family, cs: seq<Conn>, i: nat) returns (before: bytes, after: bytes)
    requires AllFit(family, cs) && i < |cs|
    ensures Rows(family, cs) == before + (RowBytes(family, cs[i]) + after) && |before| == Size(family, i)
  {
    var front, last := cs[..|cs| - 1], cs[|cs| - 1];
    if i < |front| {
      before, after := RowsHold(family, front, i);
      assert front[i] == cs[i];
      Longer(before, RowBytes(family, cs[i]), after, RowBytes(family, last));
      after := after + RowBytes(family, last);
    } else {
      before, after := Rows(family, front), [];
      NothingBehind(RowBytes(family, last));
    }
  }

  lemma Longer(before: bytes, row: bytes, after: bytes, more: bytes)
    ensures (before + (row + after)) + more == before + (row + (after + more))
  {
    Regrouped(before, row + after, more);
    Regrouped(row, after, more);
  }

  lemma NothingBehind(row: bytes)
    ensures row + [] == row
  {
  }

  lemma Middle(a: bytes, b: bytes, c: bytes)
    ensures (a + (b + c))[|a|..|a| + |b|] == b
  {
  }

  lemma CountIs(family: Family, cs: seq<Conn>, rest: bytes)
    requires AllFit(family, cs) && |cs| < 0x1_0000_0000 && !family.OtherFamily?
    ensures var table := TableBytes(family, cs, rest);
            RowsFit(table, family) && Count(table) == |cs|
  {
    var table := TableBytes(family, cs, rest);
    LittleWordIs(|cs|);
    assert table[..4] == LittleWord(|cs|);
  }

  lemma TableParts(word: bytes, before: bytes, row: bytes, after: bytes, rest: bytes)
    ensures word + ((before + (row + after)) + rest) == (word + before) + (row + (after + rest))
  {
    Regrouped(before, row + after, rest);
    Regrouped(row, after, rest);
    Regrouped(word, before, row + (after + rest));
  }

  lemma RowIs(family: Family, cs: seq<Conn>, rest: bytes, i: nat)
    requires AllFit(family, cs) && |cs| < 0x1_0000_0000 && !family.OtherFamily? && i < |cs|
    requires RowsFit(TableBytes(family, cs, rest), family) && Count(TableBytes(family, cs, rest)) == |cs|
    ensures Row(TableBytes(family, cs, rest), family, i) == RowBytes(family, cs[i])
  {
    var before, after := RowsHold(family, cs, i);
    var row := RowBytes(family, cs[i]);
    var head := LittleWord(|cs|) + before;
    TableParts(LittleWord(|cs|), before, row, after, rest);
    Middle(head, row, after + rest);
    assert |head| == RowStart(family, i) && |head| + |row| == RowStart(family, i + 1);
  }

  lemma RowReports(naming: Naming, family: Family, pid: nat, cs: seq<Conn>, rest: bytes, i: nat)
    requires AllFit(family, cs) && |cs| < 0x1_0000_0000 && !family.OtherFamily? && i < |cs|
    requires RowsFit(TableBytes(family, cs, rest), family) && Count(TableBytes(family, cs, rest)) == |cs|
    ensures Contribution(naming, Row(TableBytes(family, cs, rest), family, i), family, pid) ==
            Reported(naming, family, pid, cs[i])
  {
    RowIs(family, cs, rest, i);
    RowContributes(naming, family, pid, cs[i]);
  }

  lemma {:induction false} RowsContribute(
    naming: Naming, family: Family, pid: nat, cs: seq<Conn>, table: bytes, n: nat)
    requires RowsFit(table, family) && Count(table) == |cs| && n <= |cs|
    requires forall i :: 0 <= i < |cs| ==>
               Contribution(naming, Row(table, family, i), family, pid) == Reported(naming, family, pid, cs[i])
    ensures Flatten(Contributions(naming, table, family, pid, n)) == AllReported(naming, family, pid, cs[..n])
  {
    if n > 0 {
      RowsContribute(naming, family, pid, cs, table, n - 1);
      ContributionsSnoc(naming, table, family, pid, n - 1);
      ReportedSnoc(naming, family, pid, cs, n - 1);
    }
  }

  lemma ReportedSnoc(naming: Naming, family: Family, pid: nat, cs: seq<Conn>, n: nat)
    requires n < |cs|
    ensures AllReported(naming, family, pid, cs[..n + 1]) ==
            AllReported(naming, family, pid, cs[..n]) + Reported(naming, family, pid, cs[n])
  {
    assert cs[..n + 1][..n] == cs[..n];
  }

  /** Every table is accepted, and exactly its reportable connections come out, in order. */
  lemma TableReadsBack(naming: Naming, family: Family, pid: nat, cs: seq<Conn>, rest: bytes)
    requires AllFit(family, cs) && |cs| < 0x1_0000_0000 && !family.OtherFamily?
    ensures RowsFit(TableBytes(family, cs, rest), family)
    ensures Projection(naming, TableBytes(family, cs, rest), family, pid) == AllReported(naming, family, pid, cs)
  {
    CountIs(family, cs, rest);
    var table := TableBytes(family, cs, rest);
    forall i | 0 <= i < |cs|
      ensures Contribution(naming, Row(table, family, i), family, pid) == Reported(naming, family, pid, cs[i])
    {
      RowReports(naming, family, pid, cs, rest, i);
    }
    RowsContribute(naming, family, pid, cs, table, |cs|);
    assert cs[..|cs|] == cs;
  }

  /** A table is accepted exactly when the number in its first word of rows lie behind that word. */
  lemma AcceptedExactly(buffer: bytes, family: Family)
    ensures RowsFit(buffer, family) <==>
            && !family.OtherFamily? && |buffer| >= 4
            && 4 + (if family.Inet? then 24 else 56) * (buffer[0] as int + buffer[1] as int * 256
               + buffer[2] as int * 65536 + buffer[3] as int * 16777216) <= |buffer|
  {
    if |buffer| >= 4 {
      LittleWordExact(buffer[..4]);
    }
  }
}
