/** The transmitter of an inter-satellite laser link (point-to-point-laser-net-device.cc),
    whose READY/BUSY changes drive the utilization accounting. */
module LaserDevice {
  import opened Options
  import opened Utilization

  datatype TxState = READY | BUSY

  class PointToPointLaserNetDevice<Packet> {
    const maxSize: nat
    var linkUp: bool
    var queue: seq<Packet>
    var txState: TxState
    var currentPkt: Option<Packet>
    var pending: nat   // scheduled TransmitComplete events

    var tracking: bool
    var interval: int
    var prev: int
    var intervalStart: int
    var intervalEnd: int
    var idle: int
    var busy: int
    var stateIsOn: bool
    var utilization: seq<real>

    ghost var trace: seq<Switch>   // every change between READY and BUSY, with its time

    ghost function M(): Meter
      reads this
    {
      Meter(interval, prev, intervalStart, intervalEnd, idle, busy, stateIsOn, utilization)
    }

    // The trace ends in the present state and nothing in it is later than t.
    ghost predicate TraceUntil(t: int)
      reads this
    {
      forall u :: u >= t ==> StateAt(trace, u) == (txState == BUSY)
    }

    ghost predicate Valid()
      reads this
    {
      && (txState == BUSY <==> currentPkt.Some?)
      && pending == (if txState == BUSY then 1 else 0)
      && (txState == READY ==> queue == [])
      && (tracking ==> Exact(M(), trace) && TraceUntil(prev))
    }

    constructor (maxSize: nat)
      ensures Valid() && !tracking && !linkUp && txState == READY && utilization == [] && trace == []
      ensures this.maxSize == maxSize
    {
      this.maxSize := maxSize;
      linkUp, queue, txState, currentPkt, pending := false, [], READY, None, 0;
      tracking, interval, prev, intervalStart, intervalEnd := false, 0, 0, 0, 0;
      idle, busy, stateIsOn, utilization := 0, 0, false, [];
      trace := [];
    }

    // To a channel, which brings the link up.
    method AttachChannel()
      requires Valid()
      modifies this`linkUp
      ensures Valid() && linkUp
    {
      linkUp := true;
    }

    // Starts the accounting as of time 0, whatever the time. It is exact from then on if nothing
    // has been recorded before and the link has not changed state since time 0.
    method EnableUtilizationTracking(intervalNs: int)
      requires Valid() && intervalNs > 0
      modifies this`tracking, this`interval, this`prev, this`intervalStart, this`intervalEnd, this`idle, this`busy, this`stateIsOn
      ensures tracking && M() == Enabled(intervalNs, old(utilization))
      ensures Valid() <==> old(utilization) == [] && old(TraceUntil(0))
    {
      tracking := true;
      interval := intervalNs;
      prev := 0;
      intervalStart := 0;
      intervalEnd := interval;
      idle := 0;
      busy := 0;
      stateIsOn := false;
      EnabledExactIff(interval, utilization, trace);
    }

    // The current interval is over: record it and move to the next.
    method EndInterval(next: bool)
      requires Balanced(M())
      modifies this`prev, this`intervalStart, this`intervalEnd, this`idle, this`busy, this`utilization
      ensures Some(M()) == CloseInterval(old(M()), next)
    {
      if next {
        idle := idle + (intervalEnd - prev);
      } else {
        busy := busy + (intervalEnd - prev);
      }
      utilization := utilization + [busy as real / interval as real];
      // the abort "Not all time is accounted for" cannot happen
      assert idle + busy == interval;
      idle := 0;
      busy := 0;
      prev := intervalEnd;
      intervalStart := intervalStart + interval;
      intervalEnd := intervalEnd + interval;
    }

    method TrackUtilization(now: int, next: bool)
      requires tracking ==> Balanced(M()) && prev <= now
      modifies this`prev, this`intervalStart, this`intervalEnd, this`idle, this`busy, this`stateIsOn, this`utilization
      ensures if tracking then Some(M()) == Track(old(M()), now, next) else M() == old(M())
    {
      if tracking {
        while now >= intervalEnd
          invariant Balanced(M()) && prev <= now && interval == old(interval)
          invariant Track(M(), now, next) == Track(old(M()), now, next)
          decreases now - intervalEnd
        {
          EndInterval(next);
        }
        if next {
          idle := idle + (now - prev);
        } else {
          busy := busy + (now - prev);
        }
        stateIsOn := next;
        prev := now;
      }
    }

    /** Reports the utilization so far. The report is right, and stays right to build on, when
        the meter's belief about the link is right or no time has passed since the last call. */
    method FinalizeUtilization(now: int) returns (entries: seq<real>)
      requires Valid() && (tracking ==> prev <= now)
      modifies this`prev, this`intervalStart, this`intervalEnd, this`idle, this`busy, this`stateIsOn, this`utilization
      ensures entries == utilization
      ensures if tracking then Some(M()) == Finalize(old(M()), now) else M() == old(M())
      ensures tracking ==> (Valid() <==> old(stateIsOn) == (txState == BUSY) || now == old(prev))
      ensures tracking && Valid() ==>
        |entries| == now / interval && forall k :: 0 <= k < |entries| ==> EntryExact(entries[k], interval, trace, k)
    {
      ghost var m := M();
      TrackUtilization(now, !stateIsOn);
      if tracking {
        FinalizeExactIff(m, trace, now, txState == BUSY);
        NeverAborts(m, now, !m.on);
        if Valid() {
          EntryCount(M(), trace);
        }
      }
      return utilization;
    }

    method TransmitStart(now: int, p: Packet, channelOk: bool) returns (result: bool)
      requires txState == READY && pending == 0 && (tracking ==> Exact(M(), trace) && TraceUntil(prev) && prev <= now)
      modifies this`txState, this`currentPkt, this`pending, this`trace
      modifies this`prev, this`intervalStart, this`intervalEnd, this`idle, this`busy, this`stateIsOn, this`utilization
      ensures txState == BUSY && currentPkt == Some(p) && pending == 1
      ensures trace == old(trace) + [Switch(now, true)]
      ensures tracking ==> Exact(M(), trace) && TraceUntil(prev) && prev == now && stateIsOn
      ensures result == channelOk
    {
      txState := BUSY;
      currentPkt := Some(p);
      ghost var m := M();
      TrackUtilization(now, true);
      if tracking {
        TrackExact(m, trace, now, true);
        ExactBeforeSwitch(M(), trace, Switch(now, true));
      }
      trace := trace + [Switch(now, true)];
      pending := pending + 1;
      // the transmission is handed to the channel
      return channelOk;
    }

    /** The completion event fires: it never finds the device READY or without a packet. */
    method TransmitComplete(now: int, channelOk: bool)
      requires Valid() && pending > 0 && (tracking ==> prev <= now)
      modifies this`txState, this`currentPkt, this`pending, this`trace, this`queue
      modifies this`prev, this`intervalStart, this`intervalEnd, this`idle, this`busy, this`stateIsOn, this`utilization
      ensures Valid()
      ensures if old(queue) == [] then txState == READY && queue == []
              else txState == BUSY && currentPkt == Some(old(queue)[0]) && queue == old(queue)[1..]
      ensures trace == old(trace) + [Switch(now, false)] + if old(queue) == [] then [] else [Switch(now, true)]
      ensures tracking ==> prev == now && stateIsOn == (txState == BUSY)
    {
      assert txState == BUSY && currentPkt.Some?;
      pending := pending - 1;
      txState := READY;
      ghost var m := M();
      TrackUtilization(now, false);
      if tracking {
        TrackExact(m, trace, now, false);
        ExactBeforeSwitch(M(), trace, Switch(now, false));
      }
      trace := trace + [Switch(now, false)];
      currentPkt := None;
      if queue == [] {
        return;
      }
      var p := queue[0];
      queue := queue[1..];
      var _ := TransmitStart(now, p, channelOk);
    }

    method Send(now: int, p: Packet, channelOk: bool) returns (ok: bool)
      requires Valid() && (tracking ==> prev <= now)
      modifies this`txState, this`currentPkt, this`pending, this`trace, this`queue
      modifies this`prev, this`intervalStart, this`intervalEnd, this`idle, this`busy, this`stateIsOn, this`utilization
      ensures Valid()
      ensures if !linkUp || |old(queue)| >= maxSize then
                !ok && queue == old(queue) && txState == old(txState) && currentPkt == old(currentPkt)
                && trace == old(trace) && M() == old(M())
              else if old(txState) == READY then
                ok == channelOk && queue == [] && txState == BUSY && currentPkt == Some(p)
                && trace == old(trace) + [Switch(now, true)]
              else
                ok && queue == old(queue) + [p] && txState == BUSY && currentPkt == old(currentPkt)
                && trace == old(trace) && M() == old(M())
    {
      if !linkUp {
        return false;
      }
      if |queue| < maxSize {
        queue := queue + [p];
        if txState == READY {
          var first := queue[0];
          queue := queue[1..];
          ok := TransmitStart(now, first, channelOk);
          return;
        }
        return true;
      }
      return false;
    }
  }
}
