/** The loop of `runListCommand` that queries every registered discovery
    and collects one `detectedPort` per listed port. */
module Aggregation {
  import opened Wrappers
  import opened Types
  import Registry
  import Seqs

  /** One iteration of the loop over the registry: the discovery's name, the
      discovery itself and what its `List()` call returned. */
  datatype Listing<D> = Listing(name: string, discovery: D, outcome: Result<seq<Port>>)

  /** The listings visit every entry of the registry exactly once, in some
      order (Go leaves the iteration order of a map unspecified). */
  ghost predicate Enumerates<D>(registry: map<string, D>, ls: seq<Listing<D>>) {
    && (forall i, j :: 0 <= i < j < |ls| ==> ls[i].name != ls[j].name)
    && (forall i :: 0 <= i < |ls| ==> ls[i].name in registry && ls[i].discovery == registry[ls[i].name])
    && (forall k :: k in registry ==> exists i :: 0 <= i < |ls| && ls[i].name == k)
  }

  /** Once the builtin is merged in, the serial discovery queried is the
      builtin one, queried exactly once, and every other discovery queried is
      the one its platform declared. */
  lemma BuiltinSerialQueriedOnce<D>(declared: map<string, D>, builtin: D, ls: seq<Listing<D>>)
    requires Enumerates(Registry.Merge(declared, builtin), ls)
    ensures exists i :: 0 <= i < |ls| && ls[i].name == Registry.BuiltinName && ls[i].discovery == builtin
    ensures forall i, j :: 0 <= i < |ls| && 0 <= j < |ls| && ls[i].name == Registry.BuiltinName == ls[j].name ==> i == j
    ensures forall i :: 0 <= i < |ls| && ls[i].name != Registry.BuiltinName ==>
              ls[i].name in declared && ls[i].discovery == declared[ls[i].name]
  {
    assert Registry.BuiltinName in Registry.Merge(declared, builtin);
  }

  /** The `detectedBoard`s built from the catalog's matches. */
  function DetectBoards(found: seq<CatalogBoard>): (r: seq<DetectedBoard>)
    ensures |r| == |found|
    ensures forall i :: 0 <= i < |r| ==> r[i].name == found[i].name && r[i].fqbn == found[i].fqbn
  {
    if |found| == 0 then []
    else [DetectedBoard(found[0].name, found[0].fqbn)] + DetectBoards(found[1..])
  }

  /** The `detectedPort` built for one listed port. */
  function Detect(port: Port, identify: Identify): (d: DetectedPort)
    ensures d.address == port.address && d.protocol == port.protocol && d.protocolLabel == port.protocolLabel
    ensures |d.boards| == |identify(port.identificationPrefs)|
    ensures forall i :: 0 <= i < |d.boards| ==>
              d.boards[i].name == identify(port.identificationPrefs)[i].name
              && d.boards[i].fqbn == identify(port.identificationPrefs)[i].fqbn
  {
    DetectedPort(port.address, port.protocol, port.protocolLabel, DetectBoards(identify(port.identificationPrefs)))
  }

  /** The number of ports listed by the discoveries that did not fail. */
  function PortCount<D>(ls: seq<Listing<D>>): nat {
    if |ls| == 0 then 0
    else PortCount(ls[..|ls| - 1]) + (match ls[|ls| - 1].outcome case Ok(ports) => |ports| case Err(_) => 0)
  }

  /** One `detectedPort` per port, in the listed order. */
  function DetectAll(ports: seq<Port>, identify: Identify): seq<DetectedPort> {
    seq(|ports|, i requires 0 <= i < |ports| => Detect(ports[i], identify))
  }

  /** What one discovery adds: nothing if its listing failed, one
      `detectedPort` per listed port otherwise. */
  function Contribution<D>(l: Listing<D>, identify: Identify): (r: seq<DetectedPort>)
    ensures l.outcome.Err? ==> r == []
    ensures l.outcome.Ok? ==> |r| == |l.outcome.value|
    ensures l.outcome.Ok? ==> forall j :: 0 <= j < |r| ==>
              && r[j].address == l.outcome.value[j].address
              && r[j].protocol == l.outcome.value[j].protocol
              && r[j].protocolLabel == l.outcome.value[j].protocolLabel
              && |r[j].boards| == |identify(l.outcome.value[j].identificationPrefs)|
  {
    match l.outcome
    case Err(_) => []
    case Ok(ports) => DetectAll(ports, identify)
  }

  /** `res.Ports` after the loop has visited the listings in order. */
  function Aggregate<D>(ls: seq<Listing<D>>, identify: Identify): (r: seq<DetectedPort>)
    ensures |r| == PortCount(ls)
  {
    if |ls| == 0 then []
    else Aggregate(ls[..|ls| - 1], identify) + Contribution(ls[|ls| - 1], identify)
  }

  /** Results are appended in discovery order. */
  lemma {:induction false} AggregateAppend<D>(a: seq<Listing<D>>, b: seq<Listing<D>>, identify: Identify)
    ensures Aggregate(a + b, identify) == Aggregate(a, identify) + Aggregate(b, identify)
    decreases |b|
  {
    if |b| == 0 {
      assert a + b == a;
    } else {
      var b' := b[..|b| - 1];
      var last := b[|b| - 1];
      assert (a + b)[..|a + b| - 1] == a + b';
      assert (a + b)[|a + b| - 1] == last;
      AggregateAppend(a, b', identify);
      assert Aggregate(b, identify) == Aggregate(b', identify) + Contribution(last, identify);
      calc {
        Aggregate(a + b, identify);
        Aggregate(a + b', identify) + Contribution(last, identify);
        Aggregate(a, identify) + Aggregate(b', identify) + Contribution(last, identify);
        Aggregate(a, identify) + Aggregate(b, identify);
      }
    }
  }

  /** A discovery whose listing failed changes nothing about the others'
      contributions. */
  lemma FailedListingIsSkipped<D>(a: seq<Listing<D>>, failed: Listing<D>, b: seq<Listing<D>>, identify: Identify)
    requires failed.outcome.Err?
    ensures Aggregate(a + [failed] + b, identify) == Aggregate(a + b, identify)
  {
    var skipped := [failed];
    assert Aggregate(skipped, identify) == [] by {
      assert skipped[..0] == [];
    }
    calc {
      Aggregate(a + skipped + b, identify);
      { AggregateAppend(a + skipped, b, identify); }
      Aggregate(a + skipped, identify) + Aggregate(b, identify);
      { AggregateAppend(a, skipped, identify); }
      Aggregate(a, identify) + Aggregate(b, identify);
      { AggregateAppend(a, b, identify); }
      Aggregate(a + b, identify);
    }
  }

  /** The result is the listings' contributions laid end to end: listing `i`
      fills the positions from `PortCount(ls[..i])` up to `PortCount(ls[..i+1])`,
      and in them, port `j` of an ok listing becomes its `detectedPort`. */
  lemma AggregateBlock<D>(ls: seq<Listing<D>>, i: nat, identify: Identify)
    requires i < |ls|
    ensures PortCount(ls[..i]) <= PortCount(ls[..i + 1]) <= |Aggregate(ls, identify)|
    ensures Aggregate(ls, identify)[PortCount(ls[..i])..PortCount(ls[..i + 1])] == Contribution(ls[i], identify)
  {
    var pre, rest := ls[..i + 1], ls[i + 1..];
    assert pre[..i] == ls[..i] && pre[i] == ls[i];
    var a, c, r := Aggregate(ls[..i], identify), Contribution(ls[i], identify), Aggregate(rest, identify);
    assert Aggregate(pre, identify) == a + c;
    assert ls == pre + rest;
    AggregateAppend(pre, rest, identify);
    Seqs.SliceOfMiddle(a, c, r);
  }

  /** Port `j` of an ok listing becomes its `j`-th contributed port. */
  lemma ContributionAt<D>(l: Listing<D>, j: nat, identify: Identify)
    requires l.outcome.Ok? && j < |l.outcome.value|
    ensures j < |Contribution(l, identify)|
    ensures Contribution(l, identify)[j] == Detect(l.outcome.value[j], identify)
  {
  }

  /** Port `j` of listing `i` is detected at offset `j` of that listing's block. */
  lemma DetectedAt<D>(ls: seq<Listing<D>>, i: nat, j: nat, identify: Identify)
    requires i < |ls| && ls[i].outcome.Ok? && j < |ls[i].outcome.value|
    ensures PortCount(ls[..i]) + j < |Aggregate(ls, identify)|
    ensures Aggregate(ls, identify)[PortCount(ls[..i]) + j] == Detect(ls[i].outcome.value[j], identify)
  {
    var r, lo, hi := Aggregate(ls, identify), PortCount(ls[..i]), PortCount(ls[..i + 1]);
    var c := Contribution(ls[i], identify);
    var d := Detect(ls[i].outcome.value[j], identify);
    assert j < |c| && c[j] == d by {
      ContributionAt(ls[i], j, identify);
    }
    assert lo + j < |r| && r[lo + j] == c[j] by {
      AggregateBlock(ls, i, identify);
      Seqs.IndexInBlock(r, lo, hi, c, j);
    }
  }

  /** Port `j` of listing `i` appears, with its address, protocol and label
      copied and its boards identified in the catalog's order. */
  lemma ListedPortIsDetected<D>(ls: seq<Listing<D>>, i: nat, j: nat, identify: Identify)
    requires i < |ls| && ls[i].outcome.Ok? && j < |ls[i].outcome.value|
    ensures PortCount(ls[..i]) + j < |Aggregate(ls, identify)|
    ensures var port, d := ls[i].outcome.value[j], Aggregate(ls, identify)[PortCount(ls[..i]) + j];
            && d.address == port.address && d.protocol == port.protocol && d.protocolLabel == port.protocolLabel
            && |d.boards| == |identify(port.identificationPrefs)|
            && forall k :: 0 <= k < |d.boards| ==>
                 d.boards[k].name == identify(port.identificationPrefs)[k].name
                 && d.boards[k].fqbn == identify(port.identificationPrefs)[k].fqbn
  {
    DetectedAt(ls, i, j, identify);
  }

  /** The innermost loop of `runListCommand`: one `detectedBoard` per match,
      in the catalog's order. */
  method CollectBoards(found: seq<CatalogBoard>) returns (b: seq<DetectedBoard>)
    ensures b == DetectBoards(found)
  {
    b := [];
    for k := 0 to |found|
      invariant |b| == k
      invariant forall t :: 0 <= t < k ==> b[t] == DetectedBoard(found[t].name, found[t].fqbn)
    {
      b := b + [DetectedBoard(found[k].name, found[k].fqbn)];
    }
  }

  /** The loop of `runListCommand` over the ports one discovery listed. */
  method DetectListedPorts(ports: seq<Port>, identify: Identify) returns (res: seq<DetectedPort>)
    ensures res == DetectAll(ports, identify)
  {
    res := [];
    for j := 0 to |ports|
      invariant |res| == j
      invariant forall t :: 0 <= t < j ==> res[t] == Detect(ports[t], identify)
    {
      var b := CollectBoards(identify(ports[j].identificationPrefs));
      var p := DetectedPort(ports[j].address, ports[j].protocol, ports[j].protocolLabel, b);
      res := res + [p];
    }
  }

  /** The loop of `runListCommand` as written, over the discoveries in the
      order the map iteration produced them. */
  method CollectDetectedPorts<D>(ls: seq<Listing<D>>, identify: Identify) returns (res: seq<DetectedPort>)
    ensures res == Aggregate(ls, identify)
  {
    res := [];
    for i := 0 to |ls|
      invariant res == Aggregate(ls[..i], identify)
    {
      assert ls[..i + 1][..i] == ls[..i];
      match ls[i].outcome {
        case Err(_) =>
        case Ok(ports) =>
          var detected := DetectListedPorts(ports, identify);
          res := res + detected;
      }
    }
    assert ls[..|ls|] == ls;
  }
}
