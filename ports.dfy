/**
 * `check_ports`: read the listening ports in a range from `netstat -tuln`
 * output, and suggest free ports at steps of 100 from the start of the range.
 */
module Ports {
  import opened Optional
  import opened PyText

  /** The text after the last `:` of a field, as `part.split(":")[-1]`. */
  function AfterLastColon(part: string): string {
    Last(SplitMax(part, ':', -1))
  }

  /** A field that names a port: it has a `:` and the text after the last `:` is digits (`isdigit`). */
  predicate IsPortField(part: string) {
    Find(part, ':') < |part| && AfterLastColon(part) != [] && AllDigits(AfterLastColon(part))
  }

  /** The port of a port field. */
  function FieldPort(part: string): nat
    requires IsPortField(part)
  {
    DigitsValue(AfterLastColon(part))
  }

  /** The position of a line's first port field: the scan stops there, even when that port is out of range. */
  function FirstPortField(parts: seq<string>): (r: Option<nat>)
    ensures r.None? <==> forall i :: 0 <= i < |parts| ==> !IsPortField(parts[i])
    ensures r.Some? ==> r.value < |parts| && IsPortField(parts[r.value])
    ensures r.Some? ==> forall i :: 0 <= i < r.value ==> !IsPortField(parts[i])
  {
    if parts == [] then None
    else if IsPortField(parts[0]) then Some(0)
    else
      assert forall i :: 1 <= i < |parts| ==> parts[i] == parts[1..][i - 1];
      match FirstPortField(parts[1..])
      case None => None
      case Some(i) => Some(i + 1)
  }

  /** The port of the first port field, if the line has one. */
  function FirstPort(parts: seq<string>): Option<nat> {
    match FirstPortField(parts)
    case None => None
    case Some(i) => Some(FieldPort(parts[i]))
  }

  /**
   * The port a `netstat` line names: only lines with `:` and `LISTEN` count,
   * and their port is that of their first port field.
   */
  function ListenPort(line: string): Option<nat> {
    if Find(line, ':') < |line| && Contains(line, "LISTEN") then FirstPort(SplitWs(line, -1)) else None
  }

  /** A line without `LISTEN`, or without `:`, names no port. */
  lemma ListenPortNeedsListen(line: string)
    requires !Contains(line, "LISTEN") || Lacks(line, ':')
    ensures ListenPort(line).None?
  {
    if Lacks(line, ':') {
      assert Find(line, ':') == |line|;
    }
  }

  /** The lines of the command output. */
  function Lines(output: string): seq<string> {
    SplitMax(output, '\n', -1)
  }

  /** The port of each listening line that names one, in output order. */
  function ListenPorts(lines: seq<string>): seq<nat> {
    if lines == [] then []
    else
      match ListenPort(lines[0])
      case Some(p) => [p] + ListenPorts(lines[1..])
      case None => ListenPorts(lines[1..])
  }

  /** The ports within `[lo, hi]`, in order. */
  function InRange(ps: seq<nat>, lo: int, hi: int): (r: seq<int>)
    ensures forall p :: p in r <==> p in ps && lo <= p <= hi
  {
    if ps == [] then []
    else
      var rest := InRange(ps[1..], lo, hi);
      assert forall p :: p in ps <==> p == ps[0] || p in ps[1..] by {
        assert ps == [ps[0]] + ps[1..];
      }
      if lo <= ps[0] <= hi then [ps[0] as int] + rest else rest
  }

  /** The `used_ports` list before sorting: the listening ports within `[lo, hi]`, in output order. */
  function UsedPorts(lines: seq<string>, lo: int, hi: int): seq<int> {
    InRange(ListenPorts(lines), lo, hi)
  }

  predicate StrictlySorted(xs: seq<int>) {
    forall i, j :: 0 <= i < j < |xs| ==> xs[i] < xs[j]
  }

  /** `x` put into a strictly sorted list, unless it is already there. */
  function Insert(x: int, xs: seq<int>): (r: seq<int>)
    requires StrictlySorted(xs)
    ensures StrictlySorted(r)
    ensures forall y :: y in r <==> y == x || y in xs
  {
    if xs == [] then [x]
    else if x < xs[0] then [x] + xs
    else if x == xs[0] then xs
    else
      var rest := Insert(x, xs[1..]);
      assert forall i :: 0 <= i < |rest| ==> xs[0] < rest[i] by {
        forall i | 0 <= i < |rest| ensures xs[0] < rest[i] {
          assert rest[i] in rest;
          if rest[i] != x {
            assert rest[i] in xs[1..];
          }
        }
      }
      [xs[0]] + rest
  }

  /** `sorted(set(xs))`: the distinct elements of `xs` in strictly increasing order. */
  function SortedSet(xs: seq<int>): (r: seq<int>)
    ensures StrictlySorted(r)
    ensures forall y :: y in r <==> y in xs
  {
    if xs == [] then []
    else
      var rest := SortedSet(xs[1..]);
      assert forall y :: y in xs <==> y == xs[0] || y in xs[1..] by {
        assert xs == [xs[0]] + xs[1..];
      }
      Insert(xs[0], rest)
  }

  /**
   * The suggestion loop from `port` upwards in steps of 100 up to `hi`,
   * stopping once `room` ports are collected: the ports not in `used`.
   */
  function Suggest(port: int, hi: int, used: seq<int>, room: nat): (r: seq<int>)
    ensures |r| <= room
    decreases hi - port
  {
    if port > hi || room == 0 then []
    else if port in used then
      Suggest(port + 100, hi, used, room)
    else
      [port] + Suggest(port + 100, hi, used, room - 1)
  }

  /** A candidate lies on the grid `port, port + 100, …`. */
  predicate OnGrid(x: int, port: int) {
    (x - port) % 100 == 0
  }

  lemma GridStep(x: int, port: int)
    requires OnGrid(x, port + 100)
    ensures OnGrid(x, port)
  {
    assert x - port == (x - (port + 100)) + 100;
  }

  lemma GridNext(x: int, port: int)
    requires OnGrid(x, port) && x > port
    ensures x >= port + 100 && OnGrid(x, port + 100)
  {
    assert x - (port + 100) == (x - port) - 100;
  }

  /** Every suggestion is a free grid point of the range, and they ascend. */
  lemma {:induction false} SuggestSound(port: int, hi: int, used: seq<int>, room: nat)
    ensures forall x :: x in Suggest(port, hi, used, room) ==> port <= x <= hi && OnGrid(x, port) && x !in used
    ensures StrictlySorted(Suggest(port, hi, used, room))
    decreases hi - port
  {
    if port <= hi && room > 0 {
      var room' := if port in used then room else room - 1;
      var rest := Suggest(port + 100, hi, used, room');
      SuggestSound(port + 100, hi, used, room');
      forall x | x in rest ensures OnGrid(x, port) {
        GridStep(x, port);
      }
      if port !in used {
        assert forall i :: 0 <= i < |rest| ==> rest[i] in rest;
      }
    }
  }

  /** Fewer suggestions than there was room for means every free grid point of the range was suggested. */
  lemma {:induction false} SuggestComplete(port: int, hi: int, used: seq<int>, room: nat, q: int)
    requires port <= q <= hi && OnGrid(q, port) && q !in used
    requires |Suggest(port, hi, used, room)| < room
    ensures q in Suggest(port, hi, used, room)
    decreases hi - port
  {
    if q != port {
      GridNext(q, port);
      var room' := if port in used then room else room - 1;
      SuggestComplete(port + 100, hi, used, room', q);
    }
  }

  /** Every free grid point up to the last suggestion was suggested: the scan skips no free port before it stops. */
  lemma {:induction false} SuggestNoGaps(port: int, hi: int, used: seq<int>, room: nat, q: int)
    requires Suggest(port, hi, used, room) != []
    requires port <= q <= Last(Suggest(port, hi, used, room)) && OnGrid(q, port) && q !in used
    ensures q in Suggest(port, hi, used, room)
    decreases hi - port
  {
    var r := Suggest(port, hi, used, room);
    if q != port {
      GridNext(q, port);
      var room' := if port in used then room else room - 1;
      var rest := Suggest(port + 100, hi, used, room');
      SuggestSound(port + 100, hi, used, room');
      if port !in used {
        assert r == [port] + rest;
        if rest == [] {
          assert Last(r) == port;
        } else {
          assert Last(r) == Last(rest);
        }
      }
      SuggestNoGaps(port + 100, hi, used, room', q);
    }
  }

  datatype PortReport = PortReport(usedPorts: seq<int>, suggestedPorts: seq<int>, range: string)

  /** `check_ports(lo, hi)` on the `netstat` output. */
  function CheckPorts(output: string, lo: int, hi: int): PortReport {
    var used := UsedPorts(Lines(output), lo, hi);
    PortReport(SortedSet(used), Take(Suggest(lo, hi, used, 5), 5), IntToDecimal(lo) + "-" + IntToDecimal(hi))
  }

  /** `used_ports`: the distinct listening ports of the range, ascending. */
  lemma UsedPortList(output: string, lo: int, hi: int)
    ensures var r := CheckPorts(output, lo, hi).usedPorts;
      && StrictlySorted(r)
      && forall p :: p in r <==> p in ListenPorts(Lines(output)) && lo <= p <= hi
  {
  }

  /**
   * `suggested_ports`: at most five free ports `lo`, `lo + 100`, … of the
   * range, ascending, and the lowest ones: no free grid port below the last
   * suggestion is passed over.
   */
  lemma SuggestedPorts(output: string, lo: int, hi: int)
    ensures var r := CheckPorts(output, lo, hi);
      && |r.suggestedPorts| <= 5 && StrictlySorted(r.suggestedPorts)
      && (forall x :: x in r.suggestedPorts ==> lo <= x <= hi && OnGrid(x, lo) && x !in r.usedPorts)
      && (r.suggestedPorts != [] ==>
            forall q :: lo <= q <= Last(r.suggestedPorts) && OnGrid(q, lo) && q !in r.usedPorts ==> q in r.suggestedPorts)
  {
    var used := UsedPorts(Lines(output), lo, hi);
    var s := Suggest(lo, hi, used, 5);
    assert Take(s, 5) == s;
    SuggestSound(lo, hi, used, 5);
    if s != [] {
      forall q | lo <= q <= Last(s) && OnGrid(q, lo) && q !in CheckPorts(output, lo, hi).usedPorts
        ensures q in s
      {
        SuggestNoGaps(lo, hi, used, 5, q);
      }
    }
  }

  /** Fewer than five suggestions means every free candidate of the range was suggested. */
  lemma SuggestionsComplete(output: string, lo: int, hi: int, q: int)
    requires lo <= q <= hi && OnGrid(q, lo)
    requires q !in CheckPorts(output, lo, hi).usedPorts
    requires |CheckPorts(output, lo, hi).suggestedPorts| < 5
    ensures q in CheckPorts(output, lo, hi).suggestedPorts
  {
    var used := UsedPorts(Lines(output), lo, hi);
    var s := Suggest(lo, hi, used, 5);
    assert Take(s, 5) == s;
    assert q !in used;
    SuggestComplete(lo, hi, used, 5, q);
  }

  /** The address field `host:port` of a `netstat` line names that port, whatever colons the host holds. */
  lemma AddressField(host: string, port: nat)
    ensures IsPortField(host + ":" + NatToDecimal(port)) && FieldPort(host + ":" + NatToDecimal(port)) == port
  {
    var d := NatToDecimal(port);
    var part := host + [':'] + d;
    assert part == host + ":" + d;
    DecimalLacks(port, ':');
    SplitLastPiece(host, d, ':');
    assert part[|host|] == ':';
    FindAtMost(part, ':', |host|);
    DigitsOfNat(port);
  }

  /** A line's port is its first address field's, when the fields before it have no port. */
  lemma FirstAddressField(before: seq<string>, host: string, port: nat, after: seq<string>)
    requires forall i :: 0 <= i < |before| ==> Lacks(before[i], ':')
    ensures FirstPort(before + [host + ":" + NatToDecimal(port)] + after) == Some(port)
  {
    var parts := before + [host + ":" + NatToDecimal(port)] + after;
    AddressField(host, port);
    forall i | 0 <= i < |before| ensures !IsPortField(parts[i]) {
      assert parts[i] == before[i];
    }
    FirstPortAt(parts, |before|);
  }

  lemma FirstPortAt(parts: seq<string>, i: nat)
    requires i < |parts| && IsPortField(parts[i])
    requires forall j :: 0 <= j < i ==> !IsPortField(parts[j])
    ensures FirstPort(parts) == Some(FieldPort(parts[i]))
  {
    var r := FirstPortField(parts);
    assert r.Some?;
    assert r.value == i;
  }
}
