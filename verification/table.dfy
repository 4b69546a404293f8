/** The rows `detectedPorts.EmitTerminal` puts in its table. */
module Table {
  import opened Types
  import Seqs

  const SerialProtocol: string := "serial"
  const UnknownBoard: string := "Unknown"

  /** The "Port" column of a port's first row: `protocol://address`, except
      for serial ports, which show the bare address. */
  function DisplayAddress(p: DetectedPort): (a: string)
    ensures p.protocol == SerialProtocol ==> a == p.address
    ensures p.protocol != SerialProtocol ==>
              && |a| == |p.protocol| + 3 + |p.address|
              && a[..|p.protocol|] == p.protocol
              && a[|p.protocol|..|p.protocol| + 3] == "://"
              && a[|p.protocol| + 3..] == p.address
  {
    if p.protocol == SerialProtocol then p.address else p.protocol + "://" + p.address
  }

  /** Two ports of one protocol show the same address exactly when their
      addresses are equal. */
  lemma DisplayAddressInjective(p: DetectedPort, q: DetectedPort)
    requires p.protocol == q.protocol
    ensures DisplayAddress(p) == DisplayAddress(q) <==> p.address == q.address
  {
  }

  /** The rows listing a port's boards: the first carries the address and
      protocol label, every later one leaves both columns empty. */
  function BoardRows(address: string, kind: string, boards: seq<DetectedBoard>): (r: seq<Row>)
    ensures |r| == |boards|
    ensures forall i :: 0 <= i < |r| ==>
              r[i] == Row(if i == 0 then address else "", if i == 0 then kind else "", boards[i].name, boards[i].fqbn)
    decreases |boards|
  {
    if |boards| == 0 then []
    else [Row(address, kind, boards[0].name, boards[0].fqbn)] + BoardRows("", "", boards[1..])
  }

  /** How many rows a port takes: one per board, and one for a port without boards. */
  function RowCount(p: DetectedPort): nat {
    if |p.boards| == 0 then 1 else |p.boards|
  }

  /** The rows of one port, its boards in the order they are in. */
  function PortRows(p: DetectedPort): (r: seq<Row>)
    ensures |r| == RowCount(p)
  {
    if |p.boards| == 0 then [Row(DisplayAddress(p), p.protocolLabel, UnknownBoard, "")]
    else BoardRows(DisplayAddress(p), p.protocolLabel, p.boards)
  }

  /** A port without boards gets the single row `(address, label, "Unknown", "")`;
      a port with boards gets one row per board, in order, with the address
      and protocol label on the first row only. */
  lemma PortRowsShape(p: DetectedPort)
    ensures PortRows(p)[0].port == DisplayAddress(p) && PortRows(p)[0].kind == p.protocolLabel
    ensures |p.boards| == 0 ==> PortRows(p) == [Row(DisplayAddress(p), p.protocolLabel, UnknownBoard, "")]
    ensures |p.boards| > 0 ==> |PortRows(p)| == |p.boards|
    ensures |p.boards| > 0 ==> forall i :: 0 < i < |p.boards| ==> PortRows(p)[i].port == "" && PortRows(p)[i].kind == ""
    ensures |p.boards| > 0 ==> forall i :: 0 <= i < |p.boards| ==>
              PortRows(p)[i].boardName == p.boards[i].name && PortRows(p)[i].fqbn == p.boards[i].fqbn
  {
  }

  /** Every board of a port has a row naming it. */
  lemma EveryBoardHasARow(p: DetectedPort, b: DetectedBoard)
    requires b in p.boards
    ensures exists i :: 0 <= i < |PortRows(p)| && PortRows(p)[i].boardName == b.name && PortRows(p)[i].fqbn == b.fqbn
  {
    var i :| 0 <= i < |p.boards| && p.boards[i] == b;
    PortRowsShape(p);
  }

  /** The number of rows the ports take together. */
  function RowTotal(ports: seq<DetectedPort>): nat {
    if |ports| == 0 then 0 else RowTotal(ports[..|ports| - 1]) + RowCount(ports[|ports| - 1])
  }

  lemma {:induction false} RowTotalAppend(a: seq<DetectedPort>, b: seq<DetectedPort>)
    ensures RowTotal(a + b) == RowTotal(a) + RowTotal(b)
    decreases |b|
  {
    if |b| == 0 {
      assert a + b == a;
    } else {
      assert (a + b)[..|a + b| - 1] == a + b[..|b| - 1];
      RowTotalAppend(a, b[..|b| - 1]);
    }
  }

  /** A port with the order of its boards forgotten. */
  datatype PortKey = PortKey(address: string, protocol: string, protocolLabel: string, boards: multiset<DetectedBoard>)

  function Key(p: DetectedPort): PortKey {
    PortKey(p.address, p.protocol, p.protocolLabel, multiset(p.boards))
  }

  function Keys(ports: seq<DetectedPort>): seq<PortKey> {
    seq(|ports|, i requires 0 <= i < |ports| => Key(ports[i]))
  }

  /** Permuting ports permutes their keys. */
  lemma {:induction false} KeysOfPermutation(ports: seq<DetectedPort>, shown: seq<DetectedPort>)
    ensures multiset(shown) == multiset(ports) ==> multiset(Keys(shown)) == multiset(Keys(ports))
    decreases |shown|
  {
    if multiset(shown) == multiset(ports) && |shown| > 0 {
      var n := |shown| - 1;
      var x := shown[n];
      assert x in multiset(ports);
      var i :| 0 <= i < |ports| && ports[i] == x;
      var rest := ports[..i] + ports[i + 1..];
      Seqs.MultisetRemove(shown, n);
      Seqs.MultisetRemove(ports, i);
      assert shown[..n] + shown[n + 1..] == shown[..n];
      KeysOfPermutation(rest, shown[..n]);
      KeysRemove(shown, n);
      KeysRemove(ports, i);
      assert Keys(shown)[n] == Key(x) && Keys(ports)[i] == Key(x);
      Seqs.MultisetCancel(multiset(Keys(shown)), multiset(Keys(ports)), Key(x));
    }
  }

  /** What the two calls of `sort.Slice` may leave behind: the ports in some
      order, each with its boards in some order. With comparators that are
      not strict weak orders, nothing more is known of the result. */
  predicate IsSortOutcome(ports: seq<DetectedPort>, shown: seq<DetectedPort>)
    ensures IsSortOutcome(ports, shown) ==> |shown| == |ports|
    ensures multiset(shown) == multiset(ports) ==> IsSortOutcome(ports, shown)
  {
    assert |Keys(shown)| == |multiset(Keys(shown))|;
    KeysOfPermutation(ports, shown);
    multiset(Keys(shown)) == multiset(Keys(ports))
  }

  /** Taking one port out of a sequence takes its rows out of the total. */
  lemma RowTotalRemove(t: seq<DetectedPort>, i: nat)
    requires i < |t|
    ensures RowTotal(t) == RowTotal(t[..i] + t[i + 1..]) + RowCount(t[i])
  {
    var a, x, c := t[..i], t[i], t[i + 1..];
    Seqs.SplitAt(t, i);
    RowTotalAppend(a + [x], c);
    assert RowTotal(a + [x]) == RowTotal(a) + RowCount(x) by {
      assert (a + [x])[..|a|] == a;
    }
    RowTotalAppend(a, c);
  }

  /** Taking one port out of a sequence takes its key out of the keys. */
  lemma KeysRemove(t: seq<DetectedPort>, i: nat)
    requires i < |t|
    ensures multiset(Keys(t[..i] + t[i + 1..])) == multiset(Keys(t)) - multiset{Key(t[i])}
  {
    var ks := Keys(t);
    Seqs.SplitAt(ks, i);
    assert Keys(t[..i] + t[i + 1..]) == ks[..i] + ks[i + 1..];
  }

  /** Reordering ports and boards does not change how many rows they take. */
  lemma {:induction false} RowTotalPermutation(s: seq<DetectedPort>, t: seq<DetectedPort>)
    requires IsSortOutcome(t, s)
    ensures RowTotal(s) == RowTotal(t)
    decreases |s|
  {
    if |s| == 0 {
      assert |Keys(t)| == |multiset(Keys(t))| == 0;
    } else {
      var n := |s| - 1;
      var x := s[n];
      KeysRemove(s, n);
      assert s[..n] + s[n + 1..] == s[..n];
      assert Key(x) in multiset(Keys(t));
      var i :| 0 <= i < |t| && Keys(t)[i] == Key(x);
      KeysRemove(t, i);
      RowTotalPermutation(s[..n], t[..i] + t[i + 1..]);
      RowTotalRemove(t, i);
      assert RowCount(t[i]) == RowCount(x) by {
        assert |t[i].boards| == |multiset(t[i].boards)| == |multiset(x.boards)| == |x.boards|;
      }
    }
  }

  /** The table's rows, port after port. */
  function Rows(ports: seq<DetectedPort>): (r: seq<Row>)
    ensures |r| == RowTotal(ports)
  {
    if |ports| == 0 then [] else Rows(ports[..|ports| - 1]) + PortRows(ports[|ports| - 1])
  }

  /** Each port's rows form one block, and the blocks follow the port order. */
  lemma {:induction false} RowsBlock(ports: seq<DetectedPort>, k: nat)
    requires k < |ports|
    ensures RowTotal(ports[..k]) <= RowTotal(ports[..k + 1]) <= |Rows(ports)|
    ensures Rows(ports)[RowTotal(ports[..k])..RowTotal(ports[..k + 1])] == PortRows(ports[k])
    decreases |ports|
  {
    var n := |ports| - 1;
    var head, tail := Rows(ports[..n]), PortRows(ports[n]);
    assert Rows(ports) == head + tail;
    if k == n {
      assert ports[..k + 1] == ports;
      Seqs.SliceOfRight(head, tail);
    } else {
      assert ports[..n][..k] == ports[..k] && ports[..n][..k + 1] == ports[..k + 1];
      RowsBlock(ports[..n], k);
      Seqs.SliceOfLeft(head, tail, RowTotal(ports[..k]), RowTotal(ports[..k + 1]));
    }
  }

  /** Row `j` of the port at position `k` sits at `RowTotal(ports[..k]) + j`. */
  lemma {:induction false} RowOfPort(ports: seq<DetectedPort>, k: nat, j: nat)
    requires k < |ports| && j < RowCount(ports[k])
    ensures RowTotal(ports[..k]) + j < |Rows(ports)|
    ensures Rows(ports)[RowTotal(ports[..k]) + j] == PortRows(ports[k])[j]
    decreases |ports|
  {
    var n := |ports| - 1;
    var head, tail := Rows(ports[..n]), PortRows(ports[n]);
    assert Rows(ports) == head + tail;
    if k == n {
      assert ports[..k] == ports[..n];
    } else {
      assert ports[..n][..k] == ports[..k];
      RowOfPort(ports[..n], k, j);
    }
  }

  /** Finds where the sort put a port. */
  lemma ShownPosition(ports: seq<DetectedPort>, shown: seq<DetectedPort>, p: DetectedPort) returns (k: nat)
    requires IsSortOutcome(ports, shown)
    requires p in ports
    ensures k < |shown| && Key(shown[k]) == Key(p)
  {
    var i :| 0 <= i < |ports| && ports[i] == p;
    assert Keys(ports)[i] == Key(p);
    assert Key(p) in multiset(Keys(shown));
    k :| 0 <= k < |shown| && Keys(shown)[k] == Key(p);
  }

  /** No port is dropped: whatever order the sorts chose, every detected
      port has a row showing its address and protocol label. */
  lemma EveryPortHasARow(ports: seq<DetectedPort>, shown: seq<DetectedPort>, p: DetectedPort)
    requires IsSortOutcome(ports, shown)
    requires p in ports
    ensures exists i :: 0 <= i < |Rows(shown)| && Rows(shown)[i].port == DisplayAddress(p) && Rows(shown)[i].kind == p.protocolLabel
  {
    var k := ShownPosition(ports, shown, p);
    RowOfPort(shown, k, 0);
    PortRowsShape(shown[k]);
    assert DisplayAddress(shown[k]) == DisplayAddress(p);
  }

  /** No candidate board is dropped either: each has a row with its name and FQBN. */
  lemma EveryBoardIsShown(ports: seq<DetectedPort>, shown: seq<DetectedPort>, p: DetectedPort, b: DetectedBoard)
    requires IsSortOutcome(ports, shown)
    requires p in ports && b in p.boards
    ensures exists i :: 0 <= i < |Rows(shown)| && Rows(shown)[i].boardName == b.name && Rows(shown)[i].fqbn == b.fqbn
  {
    var k := ShownPosition(ports, shown, p);
    assert b in multiset(shown[k].boards);
    EveryBoardHasARow(shown[k], b);
    var j :| 0 <= j < |PortRows(shown[k])| && PortRows(shown[k])[j].boardName == b.name && PortRows(shown[k])[j].fqbn == b.fqbn;
    RowOfPort(shown, k, j);
  }

  /** The body of `EmitTerminal`'s loop for one port, as written. */
  method EmitPort(port: DetectedPort) returns (block: seq<Row>)
    ensures block == PortRows(port)
  {
    var address := port.protocol + "://" + port.address;
    if port.protocol == SerialProtocol {
      address := port.address;
    }
    var protocol := port.protocolLabel;
    block := [];
    if |port.boards| > 0 {
      for j := 0 to |port.boards|
        invariant |block| == j
        invariant address == (if j == 0 then DisplayAddress(port) else "")
        invariant protocol == (if j == 0 then port.protocolLabel else "")
        invariant forall t :: 0 <= t < j ==>
                    block[t] == Row(if t == 0 then DisplayAddress(port) else "", if t == 0 then port.protocolLabel else "",
                                    port.boards[t].name, port.boards[t].fqbn)
      {
        block := block + [Row(address, protocol, port.boards[j].name, port.boards[j].fqbn)];
        address := "";
        protocol := "";
      }
    } else {
      block := [Row(address, protocol, UnknownBoard, "")];
    }
    PortRowsShape(port);
  }

  /** `EmitTerminal` as written, over the ports as the sorts left them. */
  method EmitTerminal(ports: seq<DetectedPort>, shown: seq<DetectedPort>) returns (rows: seq<Row>)
    requires IsSortOutcome(ports, shown)
    ensures rows == Rows(shown)
    ensures |rows| == RowTotal(ports)
  {
    rows := [];
    for k := 0 to |shown|
      invariant rows == Rows(shown[..k])
    {
      var block := EmitPort(shown[k]);
      assert shown[..k + 1][..k] == shown[..k];
      rows := rows + block;
    }
    assert shown[..|shown|] == shown;
    RowTotalPermutation(shown, ports);
  }
}
