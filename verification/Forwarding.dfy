/** The dynamic forwarding tables of a satellite network: loading state files line by line
    (arbiter-single-forward-helper.cc), and deciding from the loaded entry
    (arbiter-single-forward.cc, arbiter-satnet.cc). */
module Forwarding {
  import opened Options

  // ---------- the network ----------

  datatype Device = Loopback | Gsl | Isl(channel: nat) | OtherDevice

  // An interface: node id and index on that node; index 0 is the loop-back.
  type End = (int, int)

  // devices[v][i] is the device of interface i of node v; a laser channel joins two ends.
  datatype Net = Net(devices: seq<seq<Device>>, channels: seq<(End, End)>) {
    function N(): nat { |devices| }

    predicate HasInterface(node: int, i: int) { 0 <= node < N() && 0 <= i < |devices[node]| }
  }

  // Every laser device is one of the two ends of its channel.
  ghost predicate Wired(net: Net) {
    forall v: int, i: int :: net.HasInterface(v, i) && net.devices[v][i].Isl? ==>
      var c := net.devices[v][i].channel;
      c < |net.channels| && (net.channels[c].0 == (v, i) || net.channels[c].1 == (v, i))
      && net.channels[c].0 != net.channels[c].1
  }

  // ---------- lines and entries ----------

  // A parsed line: current node, target node, next hop, and interfaces without the loop-back.
  datatype Line = Line(cur: int, target: int, next: int, myIf: int, nextIf: int)

  datatype Entry = Entry(next: int, ownIf: int, nextIf: int)

  const UNSET := Entry(-2, -2, -2)
  const DROP := Entry(-1, 0, 0)

  function EntryOf(l: Line): Entry { Entry(l.next, 1 + l.myIf, 1 + l.nextIf) }

  // The end across a channel, as seen from a node.
  function Across(ends: (End, End), node: int): End {
    if ends.0.0 == node then ends.1 else ends.0
  }

  // ---------- what a table entry should be ----------

  // A hop from node v over own interface to an interface of the next node.
  predicate IsHop(net: Net, v: int, e: Entry) {
    && net.HasInterface(v, e.ownIf) && net.HasInterface(e.next, e.nextIf) && e.ownIf > 0 && e.nextIf > 0
    && match net.devices[v][e.ownIf]
       case Gsl => net.devices[e.next][e.nextIf].Gsl?
       case Isl(c) => c < |net.channels| && net.devices[e.next][e.nextIf].Isl? && Across(net.channels[c], v) == (e.next, e.nextIf)
       case _ => false
  }

  predicate ValidEntry(net: Net, v: int, e: Entry) {
    e == UNSET || e == DROP || IsHop(net, v, e)
  }

  // Lines that pass every check, stated as what they must mean.
  predicate Acceptable(net: Net, l: Line) {
    && 0 <= l.cur < net.N() && 0 <= l.target < net.N()
    && (EntryOf(l) == DROP || IsHop(net, l.cur, EntryOf(l)))
  }

  /** An accepted hop joins two ground-satellite devices or two laser devices, never the loop-back. */
  lemma HopJoinsLikeDevices(net: Net, v: int, e: Entry)
    requires IsHop(net, v, e)
    ensures 0 <= v < |net.devices| && 0 < e.ownIf < |net.devices[v]|
    ensures 0 <= e.next < |net.devices| && 0 < e.nextIf < |net.devices[e.next]|
    ensures var own, next := net.devices[v][e.ownIf], net.devices[e.next][e.nextIf];
      (own.Gsl? && next.Gsl?) || (own.Isl? && next.Isl?)
  {
  }

  // The two interfaces of a hop are the two ends of a channel.
  predicate IsChannel(ends: (End, End), v: int, e: Entry) {
    ends == ((v, e.ownIf), (e.next, e.nextIf)) || ends == ((e.next, e.nextIf), (v, e.ownIf))
  }

  /** An accepted hop over a laser channel leads from one end of it to the other, except when
      the channel joins a node to itself and the own interface is its second end: then the
      check lets the hop lead back to that interface. */
  lemma HopUsesItsChannelIff(net: Net, v: int, e: Entry)
    requires Wired(net) && IsHop(net, v, e) && net.devices[v][e.ownIf].Isl?
    ensures var ends := net.channels[net.devices[v][e.ownIf].channel];
      && (IsChannel(ends, v, e) <==> !(ends.0.0 == ends.1.0 && ends.1 == (v, e.ownIf)))
      && (IsChannel(ends, v, e) || (e.next, e.nextIf) == (v, e.ownIf))
      && (e.next == v <==> ends.0.0 == ends.1.0)
  {
    assert net.HasInterface(v, e.ownIf);
  }

  // For instance one node with both ends of a channel, and its second end as own interface.
  lemma SelfChannelHop()
    ensures var net, e := Net([[Loopback, Isl(0), Isl(0)]], [((0, 1), (0, 2))]), Entry(0, 2, 2);
      Wired(net) && IsHop(net, 0, e) && !IsChannel(net.channels[0], 0, e)
  {
  }

  /** Lines that the checks must let pass: drops between any nodes, hops between any two
      ground-satellite devices, and hops along a channel from either end. */
  lemma GoodLinesPass(net: Net, v: int, w: int, target: int, i: int, j: int)
    requires 0 <= v < |net.devices| && 0 <= w < |net.devices| && 0 <= target < |net.devices|
    requires 0 < i < |net.devices[v]| && 0 < j < |net.devices[w]|
    ensures Acceptable(net, Line(v, target, -1, -1, -1))
    ensures net.devices[v][i].Gsl? && net.devices[w][j].Gsl? ==> Acceptable(net, Line(v, target, w, i - 1, j - 1))
    ensures net.devices[v][i].Isl? && net.devices[v][i] == net.devices[w][j] && net.devices[v][i].channel < |net.channels| ==>
      var ends := net.channels[net.devices[v][i].channel];
      && (ends == ((v, i), (w, j)) ==> Acceptable(net, Line(v, target, w, i - 1, j - 1)))
      && (ends == ((w, j), (v, i)) && v != w ==> Acceptable(net, Line(v, target, w, i - 1, j - 1)))
  {
  }

  // ---------- the table as a function of the lines loaded ----------

  function LastEntry(lines: seq<Line>, v: int, target: int): Entry {
    if lines == [] then UNSET
    else
      var l := lines[|lines| - 1];
      if l.cur == v && l.target == target then EntryOf(l) else LastEntry(lines[..|lines| - 1], v, target)
  }

  // Some line is for the pair.
  predicate Mentions(lines: seq<Line>, v: int, target: int) {
    exists i :: 0 <= i < |lines| && lines[i].cur == v && lines[i].target == target
  }

  lemma MentionsNext(lines: seq<Line>, l: Line, v: int, target: int)
    ensures Mentions(lines + [l], v, target) <==> Mentions(lines, v, target) || (l.cur == v && l.target == target)
  {
    if Mentions(lines, v, target) {
      var i :| 0 <= i < |lines| && lines[i].cur == v && lines[i].target == target;
      assert (lines + [l])[i] == lines[i];
    }
    assert (lines + [l])[|lines|] == l;
  }

  /** Whatever was loaded, an entry is untouched, a drop, or a proper hop; and it is untouched
      exactly when no line was for its pair. */
  lemma {:induction false} TableInvariant(net: Net, lines: seq<Line>, v: int, target: int)
    requires forall i :: 0 <= i < |lines| ==> Acceptable(net, lines[i])
    ensures ValidEntry(net, v, LastEntry(lines, v, target))
    ensures LastEntry(lines, v, target) == UNSET <==> !Mentions(lines, v, target)
  {
    if lines != [] {
      var m := |lines| - 1;
      TableInvariant(net, lines[..m], v, target);
      assert Acceptable(net, lines[m]);
      MentionsNext(lines[..m], lines[m], v, target);
      assert lines == lines[..m] + [lines[m]];
    }
  }

  /** Loading more lines replaces the entries of the pairs they are for by their own last
      entries, and keeps all others. */
  lemma {:induction false} SecondLoad(first: seq<Line>, second: seq<Line>, v: int, target: int)
    ensures LastEntry(first + second, v, target) ==
      if Mentions(second, v, target) then LastEntry(second, v, target) else LastEntry(first, v, target)
  {
    if second == [] {
      assert first + second == first;
    } else {
      var m := |second| - 1;
      assert (first + second)[..|first| + m] == first + second[..m];
      SecondLoad(first, second[..m], v, target);
      MentionsNext(second[..m], second[m], v, target);
      assert second == second[..m] + [second[m]];
    }
  }

  lemma EverySecondLoad(first: seq<Line>, second: seq<Line>)
    ensures forall v: int, target: int ::
      LastEntry(first + second, v, target) == (if Mentions(second, v, target) then LastEntry(second, v, target) else LastEntry(first, v, target))
  {
    forall v: int, target: int ensures LastEntry(first + second, v, target) ==
      if Mentions(second, v, target) then LastEntry(second, v, target) else LastEntry(first, v, target)
    {
      SecondLoad(first, second, v, target);
    }
  }

  // ---------- deciding ----------

  datatype Decision = Abort | NoRoute | Forward(outIf: int, gateway: End)

  function Decide(net: Net, e: Entry): Decision {
    if e.next == -2 || e.ownIf == -2 || e.nextIf == -2 then Abort
    else if e.next != -1 then
      // reads the address of interface nextIf of the next node
      if net.HasInterface(e.next, e.nextIf) then Forward(e.ownIf, (e.next, e.nextIf)) else Abort
    else NoRoute
  }

  // Line i is the last one for its pair.
  ghost predicate IsLast(lines: seq<Line>, i: nat) {
    i < |lines| && forall j :: i < j < |lines| ==> lines[j].cur != lines[i].cur || lines[j].target != lines[i].target
  }

  // What a line tells a node to do.
  function Meant(l: Line): Decision {
    if l.next == -1 then NoRoute else Forward(1 + l.myIf, (l.next, 1 + l.nextIf))
  }

  /** For a pair some line was loaded for, the decision never aborts or looks up an interface
      that does not exist: it drops or forwards as the last of those lines said. */
  lemma {:induction false} DecisionIsLastLine(net: Net, lines: seq<Line>, i: nat)
    requires forall j :: 0 <= j < |lines| ==> Acceptable(net, lines[j])
    requires IsLast(lines, i)
    ensures Decide(net, LastEntry(lines, lines[i].cur, lines[i].target)) == Meant(lines[i])
  {
    LastFor(lines, i);
    assert Acceptable(net, lines[i]);
  }

  lemma {:induction false} LastFor(lines: seq<Line>, i: nat)
    requires IsLast(lines, i)
    ensures LastEntry(lines, lines[i].cur, lines[i].target) == EntryOf(lines[i])
  {
    if i < |lines| - 1 {
      var shorter := lines[..|lines| - 1];
      assert shorter[i] == lines[i];
      LastFor(shorter, i);
    }
  }

  /** The decision aborts exactly for pairs no line was for. */
  lemma {:induction false} AbortIff(net: Net, lines: seq<Line>, v: int, target: int)
    requires forall j :: 0 <= j < |lines| ==> Acceptable(net, lines[j])
    ensures Decide(net, LastEntry(lines, v, target)) == Abort <==> !Mentions(lines, v, target)
  {
    TableInvariant(net, lines, v, target);
  }

  // ---------- loading ----------

  // Which check stops the simulation.
  datatype Status = Fine | BadNumber | BadNode | MixedDrop | BadInterface | UnsupportedDevice | DeviceMismatch | ChannelMismatch | SetInvalid

  class ArbiterSingleForwardHelper {
    const net: Net
    const table: array2<Entry>   // table[v, target] is the entry of node v's arbiter
    ghost var loaded: seq<Line>

    ghost predicate Valid()
      reads this, table
    {
      && table.Length0 == table.Length1 == net.N()
      && (forall i :: 0 <= i < |loaded| ==> Acceptable(net, loaded[i]))
      && (forall v: int, target: int :: 0 <= v < net.N() && 0 <= target < net.N() ==> table[v, target] == LastEntry(loaded, v, target))
    }

    // InitialEmptyForwardingState
    constructor (net: Net)
      ensures Valid() && this.net == net && loaded == [] && fresh(table)
    {
      this.net := net;
      table := new Entry[|net.devices|, |net.devices|]((_, _) => UNSET);
      loaded := [];
    }

    // The checks of one line, in the order in which they are made.
    method CheckLine(l: Line) returns (status: Status)
      requires Wired(net)
      ensures status == Fine <==> Acceptable(net, l)
      ensures status != SetInvalid
      ensures status == BadNumber <==> l.cur < 0 || l.target < 0
      ensures status == BadNode <==> l.cur >= 0 && l.target >= 0 && (l.cur >= net.N() || l.target >= net.N() || l.next < -1 || l.next >= net.N())
    {
      if l.cur < 0 || l.target < 0 {
        return BadNumber;
      }
      if l.cur >= net.N() || l.target >= net.N() || l.next < -1 || l.next >= net.N() {
        return BadNode;
      }
      if !(l.next == -1 && l.myIf == -1 && l.nextIf == -1) && !(l.next != -1 && l.myIf != -1 && l.nextIf != -1) {
        return MixedDrop;
      }
      if !(l.myIf == -1 || (l.myIf >= 0 && l.myIf + 1 < |net.devices[l.cur]|)) {
        return BadInterface;
      }
      if !(l.nextIf == -1 || (l.nextIf >= 0 && l.nextIf + 1 < |net.devices[l.next]|)) {
        return BadInterface;
      }
      if l.next != -1 && l.myIf != -1 && l.nextIf != -1 {
        var source, destination := net.devices[l.cur][1 + l.myIf], net.devices[l.next][1 + l.nextIf];
        if !source.Gsl? && !source.Isl? {
          return UnsupportedDevice;
        }
        if source.Gsl? && !destination.Gsl? {
          return DeviceMismatch;
        }
        if source.Isl? && !destination.Isl? {
          return DeviceMismatch;
        }
        if source.Isl? {
          assert net.HasInterface(l.cur, 1 + l.myIf);
          var (end0, end1) := net.channels[source.channel];
          var other := if end0.0 == l.cur then end1 else end0;
          if other.0 != l.next || other.1 != 1 + l.nextIf {
            return ChannelMismatch;
          }
        }
      }
      return Fine;
    }

    method SetSingleForwardState(cur: int, target: int, next: int, ownIf: int, nextIf: int) returns (status: Status)
      requires 0 <= cur < table.Length0 && 0 <= target < table.Length1
      modifies table
      ensures status == if next == -2 || ownIf == -2 || nextIf == -2 then SetInvalid else Fine
      ensures forall v: int, w: int :: 0 <= v < table.Length0 && 0 <= w < table.Length1 ==>
        table[v, w] == if status == Fine && (v, w) == (cur, target) then Entry(next, ownIf, nextIf) else old(table[v, w])
    {
      if next == -2 || ownIf == -2 || nextIf == -2 {
        return SetInvalid;
      }
      table[cur, target] := Entry(next, ownIf, nextIf);
      return Fine;
    }

    /** What node cur does with a packet for the target: what the last line for the pair said,
        and an abort exactly when there was none. */
    method DecideNext(cur: int, target: int) returns (d: Decision)
      requires Valid() && 0 <= cur < net.N() && 0 <= target < net.N()
      ensures forall i: nat :: IsLast(loaded, i) && loaded[i].cur == cur && loaded[i].target == target ==> d == Meant(loaded[i])
      ensures d == Abort <==> !Mentions(loaded, cur, target)
    {
      var e := table[cur, target];
      AbortIff(net, loaded, cur, target);
      forall i: nat | IsLast(loaded, i) && loaded[i].cur == cur && loaded[i].target == target
        ensures Decide(net, e) == Meant(loaded[i])
      {
        DecisionIsLastLine(net, loaded, i);
      }
      d := Decide(net, e);
    }

    /** Loads the lines of one file up to the first that fails a check, which aborts. Setting
        a checked line never fails. After a full load the next one is scheduled. */
    method UpdateForwardingState(t: int, lines: seq<Line>, interval: int, end: int, isStatic: bool)
      returns (status: Status, count: nat, next: Option<int>)
      requires Valid() && Wired(net)
      modifies this, table
      ensures Valid()
      ensures count <= |lines| && loaded == old(loaded) + lines[..count]
      ensures forall v: int, target: int :: 0 <= v < net.N() && 0 <= target < net.N() ==>
        table[v, target] == if Mentions(lines[..count], v, target) then LastEntry(lines[..count], v, target) else old(table[v, target])
      ensures status == Fine <==> count == |lines|
      ensures status != Fine ==> !Acceptable(net, lines[count]) && status != SetInvalid
      ensures next == if status == Fine && !isStatic && t + interval < end then Some(t + interval) else None
    {
      count, next := 0, None;
      while count < |lines|
        invariant count <= |lines| && Valid() && loaded == old(loaded) + lines[..count]
      {
        var l := lines[count];
        status := CheckLine(l);
        if status != Fine {
          EverySecondLoad(old(loaded), lines[..count]);
          return;
        }
        ghost var before := loaded;
        status := SetSingleForwardState(l.cur, l.target, l.next, 1 + l.myIf, 1 + l.nextIf);
        assert (before + [l])[..|before|] == before;
        loaded := before + [l];
        count := count + 1;
      }
      status := Fine;
      EverySecondLoad(old(loaded), lines[..count]);
      if !isStatic {
        var nextUpdate := t + interval;
        if nextUpdate < end {
          next := Some(nextUpdate);
        }
      }
    }

    /** The chain of scheduled loads, starting with the one at time 0. Unless a line aborts it,
        the files loaded are those at all multiples of the interval before the end, each
        completely and in order; the one at time 0 is always loaded. */
    method RunLoads(files: int -> seq<Line>, interval: int, end: int, isStatic: bool) returns (status: Status, times: seq<int>)
      requires Valid() && Wired(net) && loaded == [] && interval > 0
      modifies this, table
      ensures Valid()
      ensures status == Fine ==> Schedule(times, interval, end, isStatic) && (isStatic || times[|times| - 1] + interval >= end)
      ensures status == Fine ==> loaded == Contents(files, times)
    {
      var pending := Some(0);
      times := [];
      status := Fine;
      while pending.Some?
        invariant Valid() && status == Fine
        invariant times == [] || Schedule(times, interval, end, isStatic)
        invariant pending == After(times, interval, end, isStatic)
        invariant loaded == Contents(files, times)
        decreases pending.Some?, if pending.Some? then end - pending.value else 0
      {
        var t := pending.value;
        var count;
        status, count, pending := UpdateForwardingState(t, files(t), interval, end, isStatic);
        if status != Fine {
          return;
        }
        assert files(t)[..count] == files(t);
        NextLoad(files, times, t, interval, end, isStatic);
        times := times + [t];
      }
      ScheduleEnds(times, interval, end, isStatic);
    }
  }

  /** From empty tables through all loads to a decision. */
  method LoadAndDecide(net: Net, files: int -> seq<Line>, interval: int, end: int, isStatic: bool, cur: int, target: int)
    returns (status: Status, times: seq<int>, d: Decision)
    requires Wired(net) && interval > 0 && 0 <= cur < net.N() && 0 <= target < net.N()
    ensures status == Fine ==> Schedule(times, interval, end, isStatic) && (isStatic || times[|times| - 1] + interval >= end)
    ensures status == Fine ==> var lines := Contents(files, times);
      && (forall i: nat :: IsLast(lines, i) && lines[i].cur == cur && lines[i].target == target ==> d == Meant(lines[i]))
      && (d == Abort <==> !Mentions(lines, cur, target))
  {
    var helper := new ArbiterSingleForwardHelper(net);
    status, times := helper.RunLoads(files, interval, end, isStatic);
    d := helper.DecideNext(cur, target);
  }

  // ---------- when files are loaded ----------

  // All lines of the files of the given times.
  function Contents(files: int -> seq<Line>, times: seq<int>): seq<Line> {
    if times == [] then [] else Contents(files, times[..|times| - 1]) + files(times[|times| - 1])
  }

  predicate Spaced(times: seq<int>, k: int, interval: int)
    requires 0 < k < |times|
  {
    times[k] == times[k - 1] + interval
  }

  // Loads one interval apart from time 0 on, all but the first before the end; only the
  // first when the state is static.
  ghost predicate Schedule(times: seq<int>, interval: int, end: int, isStatic: bool) {
    && |times| > 0 && times[0] == 0
    && forall k :: 0 < k < |times| ==> Spaced(times, k, interval) && times[k] < end && !isStatic
  }

  function After(times: seq<int>, interval: int, end: int, isStatic: bool): Option<int> {
    if times == [] then Some(0)
    else
      var t := times[|times| - 1] + interval;
      if !isStatic && t < end then Some(t) else None
  }

  lemma ScheduleEnds(times: seq<int>, interval: int, end: int, isStatic: bool)
    requires After(times, interval, end, isStatic) == None
    ensures times != [] && (isStatic || times[|times| - 1] + interval >= end)
  {
  }

  lemma {:induction false} NextLoad(files: int -> seq<Line>, times: seq<int>, t: int, interval: int, end: int, isStatic: bool)
    requires times == [] || Schedule(times, interval, end, isStatic)
    requires After(times, interval, end, isStatic) == Some(t)
    ensures Schedule(times + [t], interval, end, isStatic)
    ensures Contents(files, times + [t]) == Contents(files, times) + files(t)
  {
    var longer := times + [t];
    assert longer[..|times|] == times;
    forall k | 0 < k < |longer| ensures Spaced(longer, k, interval) && longer[k] < end && !isStatic {
      if k < |times| {
        assert Spaced(times, k, interval);
      }
    }
  }
}
