/** One run of the timer callback as a function of the message it starts from,
    the node's frame id and what the device and clock answer during the tick,
    and a sequence of ticks as the fold of that function. */
module Tick {
  import opened Messages

  /** Outcome of one blocking read: a value, or a `std::runtime_error`. */
  datatype Read<+T> = Ok(value: T) | Fail

  /** The device operations a tick calls, in the order it calls them. */
  datatype DeviceCall = GetAccelMsq | GetGyroRps | GetQuaternion | Reconnect

  /** What the outside world answers during one tick: the clock reading, the
      three reads (a read after a failed one is never made, so its outcome is
      irrelevant) and what `reconnect()` returns if it is called. */
  datatype TickInput = TickInput(
    now: int,
    accel: Read<Vector3>,
    gyro: Read<Vector3>,
    quat: Read<Quaternion>,
    reconnectOk: bool)

  /** The message after the tick, the copy handed to the publisher if any, the
      device calls made and whether the one-second pause happened. */
  datatype TickOutcome = TickOutcome(msg: Imu, sent: Option<Imu>, calls: seq<DeviceCall>, slept: bool)

  predicate AllReadsOk(t: TickInput) {
    t.accel.Ok? && t.gyro.Ok? && t.quat.Ok?
  }

  /** `m` stamped with the tick's clock reading and frame id and filled with its
      three readings. */
  function Assembled(m: Imu, frameId: string, t: TickInput): Imu
    requires AllReadsOk(t)
  {
    m.(header := Header(t.now, frameId),
       linearAcceleration := t.accel.value,
       angularVelocity := t.gyro.value,
       orientation := t.quat.value)
  }

  /** The catch block: call `reconnect()` once and pause if it failed. */
  function Recover(m: Imu, attempted: seq<DeviceCall>, reconnectOk: bool): TickOutcome {
    TickOutcome(m, None, attempted + [Reconnect], !reconnectOk)
  }

  function Step(m: Imu, frameId: string, t: TickInput): (r: TickOutcome)
    // the header is overwritten before any read, whatever follows
    ensures r.msg.header == Header(t.now, frameId)
    // no tick touches a covariance array
    ensures CovariancesOf(r.msg) == CovariancesOf(m)
    // a message is published exactly when all three reads succeed, and it is
    // the fully assembled message: every reading comes from this tick
    ensures r.sent.Some? <==> AllReadsOk(t)
    ensures r.sent.Some? ==>
      && r.sent.value == r.msg
      && r.msg.linearAcceleration == t.accel.value
      && r.msg.angularVelocity == t.gyro.value
      && r.msg.orientation == t.quat.value
    // on a failure the readings of the previous tick stay in the message
    ensures !AllReadsOk(t) ==>
      && r.msg.linearAcceleration == m.linearAcceleration
      && r.msg.angularVelocity == m.angularVelocity
      && r.msg.orientation == m.orientation
    // reads happen in order and stop at the first failure
    ensures 1 <= |r.calls| <= 4 && r.calls[0] == GetAccelMsq
    ensures (if AllReadsOk(t) then r.calls else r.calls[..|r.calls| - 1]) <= [GetAccelMsq, GetGyroRps, GetQuaternion]
    ensures GetGyroRps in r.calls <==> t.accel.Ok?
    ensures GetQuaternion in r.calls <==> t.accel.Ok? && t.gyro.Ok?
    // reconnect is called once, last, exactly on a failure
    ensures Reconnect in r.calls <==> !AllReadsOk(t)
    ensures !AllReadsOk(t) ==> r.calls[|r.calls| - 1] == Reconnect && Reconnect !in r.calls[..|r.calls| - 1]
    // the pause happens exactly when a reconnect was attempted and failed
    ensures r.slept <==> !AllReadsOk(t) && !t.reconnectOk
  {
    var stamped := m.(header := Header(t.now, frameId));
    if t.accel.Fail? then Recover(stamped, [GetAccelMsq], t.reconnectOk)
    else if t.gyro.Fail? then Recover(stamped, [GetAccelMsq, GetGyroRps], t.reconnectOk)
    else if t.quat.Fail? then Recover(stamped, [GetAccelMsq, GetGyroRps, GetQuaternion], t.reconnectOk)
    else
      var filled := Assembled(m, frameId, t);
      TickOutcome(filled, Some(filled), [GetAccelMsq, GetGyroRps, GetQuaternion], false)
  }

  /** The message and the published stream after a sequence of ticks. */
  datatype Trace = Trace(msg: Imu, sent: seq<Imu>)

  function Run(m: Imu, frameId: string, inputs: seq<TickInput>): (r: Trace)
    // at most one message per tick
    ensures |r.sent| <= |inputs|
    // the persistent message carries the last tick's stamp, published or not
    ensures inputs != [] ==> r.msg.header == Header(inputs[|inputs| - 1].now, frameId)
    decreases |inputs|
  {
    if inputs == [] then Trace(m, [])
    else
      var before := Run(m, frameId, inputs[..|inputs| - 1]);
      var r := Step(before.msg, frameId, inputs[|inputs| - 1]);
      Trace(r.msg, before.sent + (if r.sent.Some? then [r.sent.value] else []))
  }

  /** Reference stream: one assembled message per tick whose reads all
      succeeded, in tick order, built from the starting covariances. */
  function Expected(m: Imu, frameId: string, inputs: seq<TickInput>): seq<Imu>
    decreases |inputs|
  {
    if inputs == [] then []
    else
      var t := inputs[|inputs| - 1];
      Expected(m, frameId, inputs[..|inputs| - 1]) + (if AllReadsOk(t) then [Assembled(m, frameId, t)] else [])
  }

  /** The covariance arrays are the same after any number of ticks, successful
      or failed. */
  lemma {:induction false} RunKeepsCovariances(m: Imu, frameId: string, inputs: seq<TickInput>)
    ensures CovariancesOf(Run(m, frameId, inputs).msg) == CovariancesOf(m)
    decreases |inputs|
  {
    if inputs != [] {
      RunKeepsCovariances(m, frameId, inputs[..|inputs| - 1]);
    }
  }

  /** The published stream is exactly one message per fully successful tick,
      each assembled from that tick's own readings, clock and frame id, with the
      starting covariances: no partial, stale or failed-tick message is ever
      published, and earlier failures never hold back a later success. */
  lemma {:induction false} RunPublishesExpected(m: Imu, frameId: string, inputs: seq<TickInput>)
    ensures Run(m, frameId, inputs).sent == Expected(m, frameId, inputs)
    decreases |inputs|
  {
    if inputs != [] {
      var prefix := inputs[..|inputs| - 1];
      RunPublishesExpected(m, frameId, prefix);
      RunKeepsCovariances(m, frameId, prefix);
      var t := inputs[|inputs| - 1];
      if AllReadsOk(t) {
        var before := Run(m, frameId, prefix).msg;
        assert Assembled(before, frameId, t) == Assembled(m, frameId, t);
      }
    }
  }

  /** The message's stamp is the clock reading of a tick whose reads all succeeded. */
  ghost predicate StampedBySuccessfulTick(msg: Imu, inputs: seq<TickInput>) {
    exists i :: 0 <= i < |inputs| && AllReadsOk(inputs[i]) && msg.header.stamp == inputs[i].now
  }

  /** Every message of the reference stream carries the frame id, the starting
      covariances and the stamp of one of the successful ticks. */
  lemma {:induction false} ExpectedMessages(m: Imu, frameId: string, inputs: seq<TickInput>)
    ensures forall k :: 0 <= k < |Expected(m, frameId, inputs)| ==>
      Expected(m, frameId, inputs)[k].header.frameId == frameId &&
      CovariancesOf(Expected(m, frameId, inputs)[k]) == CovariancesOf(m)
    ensures forall k :: 0 <= k < |Expected(m, frameId, inputs)| ==>
      StampedBySuccessfulTick(Expected(m, frameId, inputs)[k], inputs)
    ensures |Expected(m, frameId, inputs)| <= |inputs|
    decreases |inputs|
  {
    if inputs != [] {
      var prefix := inputs[..|inputs| - 1];
      ExpectedMessages(m, frameId, prefix);
      var e, e' := Expected(m, frameId, prefix), Expected(m, frameId, inputs);
      forall k | 0 <= k < |e'|
        ensures e'[k].header.frameId == frameId && CovariancesOf(e'[k]) == CovariancesOf(m)
        ensures StampedBySuccessfulTick(e'[k], inputs)
      {
        if k < |e| {
          assert e'[k] == e[k];
          var i :| 0 <= i < |prefix| && AllReadsOk(prefix[i]) && e[k].header.stamp == prefix[i].now;
          assert inputs[i] == prefix[i];
        } else {
          assert e'[k] == Assembled(m, frameId, inputs[|inputs| - 1]);
          assert AllReadsOk(inputs[|inputs| - 1]);
        }
      }
    }
  }

  /** With a device that never fails, every tick publishes. */
  lemma {:induction false} HealthyDevicePublishesEveryTick(m: Imu, frameId: string, inputs: seq<TickInput>)
    requires forall i :: 0 <= i < |inputs| ==> AllReadsOk(inputs[i])
    ensures |Run(m, frameId, inputs).sent| == |inputs|
    decreases |inputs|
  {
    RunPublishesExpected(m, frameId, inputs);
    if inputs != [] {
      HealthyDevicePublishesEveryTick(m, frameId, inputs[..|inputs| - 1]);
      RunPublishesExpected(m, frameId, inputs[..|inputs| - 1]);
    }
  }

  /** A device that always fails never gets a message published. */
  lemma {:induction false} FailingDevicePublishesNothing(m: Imu, frameId: string, inputs: seq<TickInput>)
    requires forall i :: 0 <= i < |inputs| ==> !AllReadsOk(inputs[i])
    ensures Run(m, frameId, inputs).sent == []
    decreases |inputs|
  {
    if inputs != [] {
      FailingDevicePublishesNothing(m, frameId, inputs[..|inputs| - 1]);
    }
  }

  predicate NowsOrdered(inputs: seq<TickInput>) {
    forall i, j :: 0 <= i < j < |inputs| ==> inputs[i].now <= inputs[j].now
  }

  predicate StampsOrdered(msgs: seq<Imu>) {
    forall i, j :: 0 <= i < j < |msgs| ==> msgs[i].header.stamp <= msgs[j].header.stamp
  }

  lemma {:induction false} ExpectedStampsBounded(m: Imu, frameId: string, inputs: seq<TickInput>)
    requires inputs != [] && NowsOrdered(inputs)
    ensures forall k :: 0 <= k < |Expected(m, frameId, inputs)| ==>
      Expected(m, frameId, inputs)[k].header.stamp <= inputs[|inputs| - 1].now
    decreases |inputs|
  {
    var prefix := inputs[..|inputs| - 1];
    if prefix != [] {
      ExpectedStampsBounded(m, frameId, prefix);
    }
  }

  lemma {:induction false} ExpectedStampsOrdered(m: Imu, frameId: string, inputs: seq<TickInput>)
    requires NowsOrdered(inputs)
    ensures StampsOrdered(Expected(m, frameId, inputs))
    decreases |inputs|
  {
    if inputs != [] {
      var prefix := inputs[..|inputs| - 1];
      assert NowsOrdered(prefix);
      ExpectedStampsOrdered(m, frameId, prefix);
      if prefix != [] {
        ExpectedStampsBounded(m, frameId, prefix);
      }
    }
  }

  /** When the clock never goes backwards, the published stamps never do either. */
  lemma PublishedStampsOrdered(m: Imu, frameId: string, inputs: seq<TickInput>)
    requires NowsOrdered(inputs)
    ensures StampsOrdered(Run(m, frameId, inputs).sent)
  {
    RunPublishesExpected(m, frameId, inputs);
    ExpectedStampsOrdered(m, frameId, inputs);
  }
}
