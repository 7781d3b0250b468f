/**
 One pass of the `while True` loop of `sendSpacemouseData`: read the device,
 build the message from the snapshot, and hand it to the socket only when the
 rate limiter lets it through. The message is kept abstract (the six axis
 values and the first two buttons, unrounded, plus the time stamp); the three
 clock readings of one pass are inputs.
 */
module Publisher {
  import opened Bits
  import opened Buttons
  import opened Device
  import opened RateLimit

  /** The fields of the JSON object the loop sends. */
  datatype Payload = Payload(
    x: real, y: real, z: real,
    roll: real, pitch: real, yaw: real,
    button0: Flag, button1: Flag,
    timeStamp: real)

  /** The loop's own state: the device object and `last_send_time`. */
  datatype Loop = Loop(device: Device, limiter: Limiter)

  /**
   What one pass consumes: the bytes `dev.read()` got from the handle, the
   clock reading `process` stamps, `current_time` and the `timeStamp` put in
   the message.
   */
  datatype Tick = Tick(data: seq<Byte>, processTime: real, currentTime: real, timeStamp: real)

  /** A message handed to the socket, with the `current_time` of its pass. */
  datatype Sent = Sent(at: real, payload: Payload)

  /** The message built from a snapshot: its axes, its first two buttons and the time stamp. */
  function ToPayload(s: State, timeStamp: real): (p: Payload)
    requires |s.buttons| >= 2
    ensures p.x == s.Get(X) && p.y == s.Get(Y) && p.z == s.Get(Z)
    ensures p.roll == s.Get(Roll) && p.pitch == s.Get(Pitch) && p.yaw == s.Get(Yaw)
    ensures p.button0 == s.buttons[0] && p.button1 == s.buttons[1]
    ensures p.timeStamp == timeStamp
  {
    Payload(s.x, s.y, s.z, s.roll, s.pitch, s.yaw, s.buttons[0], s.buttons[1], timeStamp)
  }

  /**
   What a pass needs so that nothing in it raises: with a handle attached the
   state has the two buttons the message reads, and a non-empty report fits
   the tables.
   */
  predicate TickFits(spec: DeviceSpec, attached: bool, nButtons: nat, tick: Tick)
  {
    attached ==> nButtons >= 2 && (tick.data != [] ==> Fits(spec, nButtons, tick.data))
  }

  predicate TicksFit(d: Device, ticks: seq<Tick>)
  {
    forall k :: 0 <= k < |ticks| ==> TickFits(d.spec, d.attached, |d.state.buttons|, ticks[k])
  }

  /**
   One pass: the device is read; with a handle, a message is sent iff a
   window has passed since the last send, and it carries the snapshot just
   read; `last_send_time` becomes this pass's `current_time` on a send and is
   otherwise kept. Without a handle nothing is sent.
   */
  function Step(lp: Loop, tick: Tick): (r: (Loop, Option<Sent>))
    requires TickFits(lp.device.spec, lp.device.attached, |lp.device.state.buttons|, tick)
    ensures r.0.device == Read(lp.device, tick.data, tick.processTime).1
    ensures r.1.Some? <==> lp.device.attached && tick.currentTime - lp.limiter.lastSendTime >= Window
    ensures r.1.Some? ==>
              && r.1.value.at == tick.currentTime
              && r.1.value.payload == ToPayload(r.0.device.state, tick.timeStamp)
    ensures r.0.limiter == if r.1.Some? then Limiter(tick.currentTime) else lp.limiter
  {
    var (state, device) := Read(lp.device, tick.data, tick.processTime);
    match state
    case None => (Loop(device, lp.limiter), None)
    case Some(s) =>
      var payload := ToPayload(s, tick.timeStamp);
      var d := Offer(lp.limiter, tick.currentTime);
      (Loop(device, d.next), if d.send then Some(Sent(tick.currentTime, payload)) else None)
  }

  /** With a handle attached, a pass sends exactly when the limiter admits its `current_time`. */
  lemma StepFollowsOffer(lp: Loop, tick: Tick)
    requires TickFits(lp.device.spec, lp.device.attached, |lp.device.state.buttons|, tick)
    requires lp.device.attached
    ensures var r := Step(lp, tick);
      && var d := Offer(lp.limiter, tick.currentTime);
      && r.1.Some? == d.send
      && r.0.limiter == d.next
      && (r.1.Some? ==> r.1.value.at == tick.currentTime)
      && r.0.device.spec == lp.device.spec
      && r.0.device.attached
      && |r.0.device.state.buttons| == |lp.device.state.buttons|
  {
  }

  /** The passes of the loop over `ticks`: the loop state after them and the messages sent, in order. */
  function RunLoop(lp: Loop, ticks: seq<Tick>): (r: (Loop, seq<Sent>))
    requires TicksFit(lp.device, ticks)
    ensures r.0.device.spec == lp.device.spec && r.0.device.attached == lp.device.attached
    ensures |r.0.device.state.buttons| == |lp.device.state.buttons|
    ensures |r.1| <= |ticks|
    ensures !lp.device.attached ==> r.1 == []
    decreases |ticks|
  {
    if ticks == [] then (lp, [])
    else
      var (next, out) := Step(lp, ticks[0]);
      var (last, rest) := RunLoop(next, ticks[1..]);
      (last, (if out.Some? then [out.value] else []) + rest)
  }

  /** Unfolding the loop by its first pass. */
  lemma RunLoopCons(lp: Loop, ticks: seq<Tick>)
    requires TicksFit(lp.device, ticks)
    requires ticks != []
    ensures var r := Step(lp, ticks[0]);
      && TicksFit(r.0.device, ticks[1..])
      && RunLoop(lp, ticks).1 == (if r.1.Some? then [r.1.value] else []) + RunLoop(r.0, ticks[1..]).1
  {
    var r := Step(lp, ticks[0]);
    assert TicksFit(r.0.device, ticks[1..]);
  }

  /** The send times of the loop, unfolded by its first pass, with a handle attached. */
  lemma LoopTimesCons(lp: Loop, ticks: seq<Tick>)
    requires TicksFit(lp.device, ticks)
    requires ticks != [] && lp.device.attached
    ensures var next := Step(lp, ticks[0]).0;
      var d := Offer(lp.limiter, ticks[0].currentTime);
      && next.limiter == d.next
      && next.device.attached
      && TicksFit(next.device, ticks[1..])
      && SendTimes(RunLoop(lp, ticks).1)
         == (if d.send then [ticks[0].currentTime] else []) + SendTimes(RunLoop(next, ticks[1..]).1)
  {
    var r := Step(lp, ticks[0]);
    StepFollowsOffer(lp, ticks[0]);
    RunLoopCons(lp, ticks);
    var front := if r.1.Some? then [r.1.value] else [];
    SendTimesAppend(front, RunLoop(r.0, ticks[1..]).1);
  }

  lemma SendTimesAppend(a: seq<Sent>, b: seq<Sent>)
    ensures SendTimes(a + b) == SendTimes(a) + SendTimes(b)
  {
    assert forall i :: 0 <= i < |a + b| ==> SendTimes(a + b)[i] == (SendTimes(a) + SendTimes(b))[i];
  }

  function SendTimes(sent: seq<Sent>): (ts: seq<real>)
    ensures |ts| == |sent|
  {
    seq(|sent|, i requires 0 <= i < |sent| => sent[i].at)
  }

  function Clock(ticks: seq<Tick>): (ts: seq<real>)
    ensures |ts| == |ticks|
  {
    seq(|ticks|, i requires 0 <= i < |ticks| => ticks[i].currentTime)
  }

  lemma ClockTail(ticks: seq<Tick>)
    requires ticks != []
    ensures Clock(ticks)[0] == ticks[0].currentTime
    ensures Clock(ticks)[1..] == Clock(ticks[1..])
  {
  }

  /**
   With a handle attached, the loop sends in exactly the passes the rate
   limiter admits on the `current_time` readings, so consecutive messages
   leave at least a window apart.
   */
  lemma {:induction false} LoopFollowsLimiter(lp: Loop, ticks: seq<Tick>)
    requires TicksFit(lp.device, ticks)
    requires lp.device.attached
    ensures SendTimes(RunLoop(lp, ticks).1) == Trace(lp.limiter, Clock(ticks)).sent
    ensures Spaced(lp.limiter.lastSendTime, SendTimes(RunLoop(lp, ticks).1))
    decreases |ticks|
  {
    if ticks != [] {
      var next := Step(lp, ticks[0]).0;
      LoopTimesCons(lp, ticks);
      LoopFollowsLimiter(next, ticks[1..]);
      ClockTail(ticks);
      TraceCons(lp.limiter, Clock(ticks));
    }
  }

  /**
   The program as it starts: the reference device, freshly constructed, with
   the handle `open_device` attached, and `last_send_time = 0`. Over passes
   whose reads return nothing or a full report, no pass raises and messages
   leave exactly when the limiter admits the pass's `current_time`.
   */
  lemma ReferenceLoop(ticks: seq<Tick>)
    requires forall k :: 0 <= k < |ticks| ==> ticks[k].data == [] || |ticks[k].data| == ReportLength
    ensures TicksFit(NewDevice(SpaceMouseWireless).(attached := true), ticks)
    ensures var lp := Loop(NewDevice(SpaceMouseWireless).(attached := true), Start);
      && SendTimes(RunLoop(lp, ticks).1) == Trace(Start, Clock(ticks)).sent
      && Spaced(0.0, SendTimes(RunLoop(lp, ticks).1))
  {
    var d := NewDevice(SpaceMouseWireless).(attached := true);
    ReferenceTable();
    forall k | 0 <= k < |ticks|
      ensures TickFits(d.spec, d.attached, |d.state.buttons|, ticks[k])
    {
      if ticks[k].data != [] {
        ReferenceFits(ticks[k].data);
      }
    }
    LoopFollowsLimiter(Loop(d, Start), ticks);
  }
}
