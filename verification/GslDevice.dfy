/** The transmitter of a ground-satellite link (gsl-net-device.cc): packets and their
    destinations wait in two separate queues, and one completion event drives the next
    transmission. It is shown to be a single first-in first-out line of pairs. */
module GslDevice {
  import opened Options

  // ---------- the reference: one line of (packet, destination) pairs ----------

  datatype Line<P, A> = Line(
    up: bool, waiting: seq<(P, A)>, current: Option<(P, A)>,
    completed: seq<(P, A)>, refused: seq<(P, A)>, dropped: seq<(P, A)>)

  // What happens to a device: it is attached to a channel, a packet is offered, or the pending
  // completion event, if there is one, fires.
  datatype Op<P, A> = Attach | Offer(p: P, dest: A) | Fire

  function Empty<P, A>(): Line<P, A> { Line(false, [], None, [], [], []) }

  predicate Admits<P, A>(s: Line<P, A>, max: nat) { s.up && |s.waiting| < max }

  function Step<P, A>(s: Line<P, A>, max: nat, op: Op<P, A>): Line<P, A> {
    match op
    case Attach => s.(up := true)
    case Offer(p, dest) =>
      if !s.up then s.(refused := s.refused + [(p, dest)])
      else if |s.waiting| >= max then s.(dropped := s.dropped + [(p, dest)])
      else if s.current.None? then s.(current := Some((p, dest)))
      else s.(waiting := s.waiting + [(p, dest)])
    case Fire =>
      if s.current.None? then s
      else if s.waiting == [] then s.(current := None, completed := s.completed + [s.current.value])
      else s.(current := Some(s.waiting[0]), waiting := s.waiting[1..], completed := s.completed + [s.current.value])
  }

  function Run<P, A>(max: nat, ops: seq<Op<P, A>>): Line<P, A> {
    if ops == [] then Empty() else Step(Run(max, ops[..|ops| - 1]), max, ops[|ops| - 1])
  }

  function InService<P, A>(s: Line<P, A>): seq<(P, A)> {
    if s.current.Some? then [s.current.value] else []
  }

  // ---------- properties of all runs ----------

  datatype Fate = Refused | Dropped | Accepted

  // What becomes of a packet offered after the given operations: the link is up once the device
  // has been attached, and there is room for one packet in service and max waiting ones.
  function FateAfter<P(==), A(==)>(max: nat, ops: seq<Op<P, A>>): Fate
    decreases |ops|, 1
  {
    if Attach !in ops then Refused else if max == 0 || InSystem(max, ops) > max then Dropped else Accepted
  }

  // Number of packets accepted and not yet completed.
  function InSystem<P(==), A(==)>(max: nat, ops: seq<Op<P, A>>): nat
    decreases |ops|, 0
  {
    if ops == [] then 0
    else
      var before, op := ops[..|ops| - 1], ops[|ops| - 1];
      var n := InSystem(max, before);
      match op
      case Attach => n
      case Offer(_, _) => if FateAfter(max, before) == Accepted then n + 1 else n
      case Fire => if n == 0 then 0 else n - 1
  }

  function WithFate<P(==), A(==)>(max: nat, ops: seq<Op<P, A>>, f: Fate): seq<(P, A)> {
    if ops == [] then []
    else
      var before, op := ops[..|ops| - 1], ops[|ops| - 1];
      WithFate(max, before, f) + if op.Offer? && FateAfter(max, before) == f then [(op.p, op.dest)] else []
  }

  function Offered<P, A>(ops: seq<Op<P, A>>): seq<(P, A)> {
    if ops == [] then []
    else
      var op := ops[|ops| - 1];
      Offered(ops[..|ops| - 1]) + if op.Offer? then [(op.p, op.dest)] else []
  }

  // Packets the device still has to complete.
  function Backlog<P, A>(s: Line<P, A>): nat { |s.waiting| + |InService(s)| }

  /** The link is up once the device has been attached, the packets in the device are as many
      as a mere count of events says, no more than max wait, and none waits at an idle device. */
  lemma {:induction false} DeviceCounts<P, A>(max: nat, ops: seq<Op<P, A>>)
    ensures var s := Run(max, ops);
      && (s.up <==> Attach in ops)
      && Backlog(s) == InSystem(max, ops) && |s.waiting| <= max
      && (s.current.None? ==> s.waiting == [])
  {
    if ops != [] {
      var before := ops[..|ops| - 1];
      DeviceCounts(max, before);
      assert ops == before + [ops[|ops| - 1]];
    }
  }

  lemma FateIs<P, A>(max: nat, ops: seq<Op<P, A>>)
    ensures var s := Run(max, ops);
      FateAfter(max, ops) == if !s.up then Refused else if Admits(s, max) then Accepted else Dropped
  {
    DeviceCounts(max, ops);
  }

  // Packets that got into the device, in the order in which they leave it.
  function InOrder<P, A>(s: Line<P, A>): seq<(P, A)> { s.completed + InService(s) + s.waiting }

  lemma StepInOrder<P, A>(s: Line<P, A>, max: nat, op: Op<P, A>)
    requires s.current.None? ==> s.waiting == []
    ensures InOrder(Step(s, max, op)) == InOrder(s) + if op.Offer? && Admits(s, max) then [(op.p, op.dest)] else []
  {
    if s.waiting != [] {
      assert s.waiting == [s.waiting[0]] + s.waiting[1..];
    }
  }

  /** Every accepted packet goes out to its own destination, in acceptance order: at any time
      the completed ones, the one in service and the waiting ones make up the accepted ones.
      The refused and the dropped are those that met no link or no room. */
  lemma {:induction false} FirstInFirstOut<P, A>(max: nat, ops: seq<Op<P, A>>)
    ensures var s := Run(max, ops);
      && s.completed + InService(s) + s.waiting == WithFate(max, ops, Accepted)
      && s.refused == WithFate(max, ops, Refused) && s.dropped == WithFate(max, ops, Dropped)
  {
    if ops != [] {
      var before, op := ops[..|ops| - 1], ops[|ops| - 1];
      FirstInFirstOut(max, before);
      DeviceCounts(max, before);
      FateIs(max, before);
      StepInOrder(Run(max, before), max, op);
    }
  }

  // Everything the device has ever been offered, as far as its state tells.
  ghost function Load<P, A>(s: Line<P, A>): multiset<(P, A)> {
    multiset(s.refused) + multiset(s.dropped) + multiset(s.completed) + multiset(InService(s)) + multiset(s.waiting)
  }

  lemma StepLoad<P, A>(s: Line<P, A>, max: nat, op: Op<P, A>)
    ensures Load(Step(s, max, op)) == Load(s) + if op.Offer? then multiset{(op.p, op.dest)} else multiset{}
  {
    if op.Offer? {
      OfferLoad(s, max, op.p, op.dest);
    } else if op.Fire? {
      FireLoad(s, max);
    }
  }

  lemma Appended<T>(s: seq<T>, x: T)
    ensures multiset(s + [x]) == multiset(s) + multiset{x}
  {
  }

  // One more in either of two groups is one more in both together.
  lemma MoreOf<T>(a: multiset<T>, b: multiset<T>, x: T)
    ensures (a + multiset{x}) + b == (a + b) + multiset{x}
    ensures a + (b + multiset{x}) == (a + b) + multiset{x}
  {
  }

  lemma OfferLoad<P, A>(s: Line<P, A>, max: nat, p: P, dest: A)
    ensures Load(Step(s, max, Offer(p, dest))) == Load(s) + multiset{(p, dest)}
  {
    var x := (p, dest);
    var refused, dropped, completed := multiset(s.refused), multiset(s.dropped), multiset(s.completed);
    var current, waiting := multiset(InService(s)), multiset(s.waiting);
    MoreOf(refused, dropped, x);
    MoreOf(refused + dropped, completed, x);
    MoreOf(refused + dropped + completed, current, x);
    MoreOf(refused + dropped + completed + current, waiting, x);
    if !s.up {
      Appended(s.refused, x);
    } else if |s.waiting| >= max {
      Appended(s.dropped, x);
    } else if s.current.Some? {
      Appended(s.waiting, x);
    } else {
      Appended([], x);
    }
  }

  lemma FireLoad<P, A>(s: Line<P, A>, max: nat)
    ensures Load(Step(s, max, Fire)) == Load(s)
  {
    if s.current.Some? {
      var x := s.current.value;
      Appended(s.completed, x);
      MoreOf(multiset(s.refused) + multiset(s.dropped), multiset(s.completed), x);
      if s.waiting != [] {
        FirstAndRest(s.waiting);
      }
    }
  }

  lemma FirstAndRest<T>(s: seq<T>)
    requires s != []
    ensures multiset(s) == multiset([s[0]]) + multiset(s[1..])
  {
    assert s == [s[0]] + s[1..];
  }

  /** No packet is lost or duplicated: each offered one is refused, dropped, completed, in
      service or waiting. */
  lemma {:induction false} Conservation<P, A>(max: nat, ops: seq<Op<P, A>>)
    ensures Load(Run(max, ops)) == multiset(Offered(ops))
  {
    if ops != [] {
      Conservation(max, ops[..|ops| - 1]);
      StepLoad(Run(max, ops[..|ops| - 1]), max, ops[|ops| - 1]);
    }
  }

  function Fires<P, A>(n: nat): seq<Op<P, A>> { if n == 0 then [] else Fires(n - 1) + [Fire] }

  lemma RunAppend<P, A>(max: nat, ops: seq<Op<P, A>>, op: Op<P, A>)
    ensures Run(max, ops + [op]) == Step(Run(max, ops), max, op)
    ensures !op.Offer? ==> forall f :: WithFate(max, ops + [op], f) == WithFate(max, ops, f)
  {
    assert (ops + [op])[..|ops|] == ops;
  }

  lemma FireCountsDown<P, A>(s: Line<P, A>, max: nat)
    requires s.current.None? ==> s.waiting == []
    ensures var s' := Step(s, max, Fire);
      if Backlog(s) == 0 then s' == s
      else Backlog(s') == Backlog(s) - 1 && |s'.completed| == |s.completed| + 1
  {
  }

  /** With no further offers the device is back to READY after exactly as many completions as
      there are packets waiting, plus the one in service; each completion counts one down. */
  lemma {:induction false} Drains<P, A>(max: nat, ops: seq<Op<P, A>>, n: nat)
    requires n <= Backlog(Run(max, ops))
    ensures var s, s' := Run(max, ops), Run(max, ops + Fires(n));
      && Backlog(s') == Backlog(s) - n
      && |s'.completed| == |s.completed| + n
      && (s'.current.None? <==> n == Backlog(s))
    ensures WithFate(max, ops + Fires(n), Accepted) == WithFate(max, ops, Accepted)
  {
    if n == 0 {
      assert ops + Fires(0) == ops;
    } else {
      Drains(max, ops, n - 1);
      OneMoreFire(max, ops, n);
    }
    ReadyIff(max, ops + Fires(n));
  }

  lemma OneMoreFire<P, A>(max: nat, ops: seq<Op<P, A>>, n: nat)
    requires n > 0
    ensures var s, s' := Run(max, ops + Fires(n - 1)), Run(max, ops + Fires(n));
      if Backlog(s) == 0 then s' == s
      else Backlog(s') == Backlog(s) - 1 && |s'.completed| == |s.completed| + 1
    ensures WithFate(max, ops + Fires(n), Accepted) == WithFate(max, ops + Fires(n - 1), Accepted)
  {
    var before := ops + Fires(n - 1);
    assert ops + Fires(n) == before + [Fire];
    RunAppend(max, before, Fire);
    DeviceCounts(max, before);
    FireCountsDown(Run(max, before), max);
  }

  lemma ReadyIff<P, A>(max: nat, ops: seq<Op<P, A>>)
    ensures Run(max, ops).current.None? <==> Backlog(Run(max, ops)) == 0
  {
    DeviceCounts(max, ops);
  }

  // ---------- the device ----------

  datatype TxState = READY | BUSY

  // Entry i of one queue belongs to entry i of the other.
  function Zip<P, A>(ps: seq<P>, ds: seq<A>): seq<(P, A)>
    requires |ps| == |ds|
  {
    seq(|ps|, i requires 0 <= i < |ps| => (ps[i], ds[i]))
  }

  class GslNetDevice<P, A> {
    const maxSize: nat
    var linkUp: bool
    var queue: seq<P>
    var queueDests: seq<A>
    var txState: TxState
    var currentPkt: Option<P>
    var pending: seq<A>   // scheduled TransmitComplete(dest) events

    ghost var completed: seq<(P, A)>
    ghost var refused: seq<(P, A)>
    ghost var dropped: seq<(P, A)>

    ghost predicate Valid()
      reads this
    {
      && |queue| == |queueDests|
      && (txState == BUSY <==> currentPkt.Some?)
      && |pending| == (if txState == BUSY then 1 else 0)
      && (txState == READY ==> queue == [])
    }

    ghost function State(): Line<P, A>
      requires Valid()
      reads this
    {
      Line(linkUp, Zip(queue, queueDests), if txState == BUSY then Some((currentPkt.value, pending[0])) else None,
           completed, refused, dropped)
    }

    constructor (maxSize: nat)
      ensures Valid() && State() == Empty() && this.maxSize == maxSize
    {
      this.maxSize := maxSize;
      linkUp, queue, queueDests, txState, currentPkt, pending := false, [], [], READY, None, [];
      completed, refused, dropped := [], [], [];
    }

    // To a channel, which brings the link up.
    method AttachChannel()
      requires Valid()
      modifies this
      ensures Valid() && State() == Step(old(State()), maxSize, Attach)
    {
      linkUp := true;
    }

    method TransmitStart(p: P, dest: A, channelOk: bool) returns (result: bool)
      requires txState == READY && currentPkt.None? && pending == [] && |queue| == |queueDests|
      modifies this`txState, this`currentPkt, this`pending
      ensures txState == BUSY && currentPkt == Some(p) && pending == [dest] && result == channelOk
    {
      txState := BUSY;
      currentPkt := Some(p);
      pending := pending + [dest];
      return channelOk;
    }

    /** Offers a packet. The answer is false when it is refused or dropped, and otherwise what
        the channel said if transmission began at once. */
    method Send(packet: P, dest: A, channelOk: bool) returns (ok: bool)
      requires Valid()
      modifies this
      ensures Valid() && State() == Step(old(State()), maxSize, Offer(packet, dest))
      ensures ok <==> Admits(old(State()), maxSize) && (old(State()).current.None? ==> channelOk)
    {
      if !linkUp {
        refused := refused + [(packet, dest)];
        return false;
      }
      if |queue| < maxSize {
        queue := queue + [packet];
        queueDests := queueDests + [dest];
        if txState == READY {
          var p := queue[0];
          queue := queue[1..];
          var nextDest := queueDests[0];
          queueDests := queueDests[1..];
          ok := TransmitStart(p, nextDest, channelOk);
          return;
        }
        return true;
      }
      dropped := dropped + [(packet, dest)];
      return false;
    }

    /** The completion event fires: it never finds the device READY or without a packet. */
    method TransmitComplete(channelOk: bool)
      requires Valid() && pending != []
      modifies this
      ensures Valid() && State() == Step(old(State()), maxSize, Fire)
    {
      assert txState == BUSY && currentPkt.Some?;
      completed := completed + [(currentPkt.value, pending[0])];
      pending := pending[1..];
      txState := READY;
      currentPkt := None;
      if queue == [] {
        return;
      }
      var p := queue[0];
      queue := queue[1..];
      var nextDest := queueDests[0];
      queueDests := queueDests[1..];
      var _ := TransmitStart(p, nextDest, channelOk);
    }
  }
}
