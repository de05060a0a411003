/** The MiBand3 client object of auth.py: its authentication state, its
    queue of sensor data, the callbacks that consume that queue, and the
    writes it issues. The BLE link is reduced to two logs: the frames the
    client writes, and what each successive waitForNotifications receives
    (a notification, or nothing when the wait times out). */
module Band {
  import opened Wire
  import Codec
  import Crc16
  import Frames
  import opened Delegate
  import Dfu

  /** A notification as bluepy delivers it: the handle and the payload. */
  datatype Notification = Notification(handle: int, data: Bytes)

  /** Which of the three callbacks are set. */
  datatype Callbacks = Callbacks(heartMeasure: bool, heartRaw: bool, accelRaw: bool)

  const NO_CALLBACKS := Callbacks(false, false, false)

  /** One call of a callback, with the decoded value it receives. */
  datatype Delivery =
    | HeartRate(bpm: int)
    | HeartRawSamples(samples: seq<int>)
    | AccelRawGroups(groups: seq<Codec.AccelSample>)

  /** The handles and the cipher the handler works with. */
  datatype Env = Env(authHandle: int, heartHandle: int, cipher: Cipher)

  /** Everything a MiBand3 object holds, as a value. */
  datatype Device = Device(
    state: Option<AuthState>,
    status: Option<AuthState>,
    queue: seq<Entry>,
    writes: seq<Frames.Write>,
    incoming: seq<Option<Notification>>,  // what each successive wait receives
    delegate: bool,                       // AuthenticationDelegate installed
    callbacks: Callbacks,
    delivered: seq<Delivery>)             // callback calls so far

  // ---------------------------------------------------------------- waits

  /** The effect of one handled notification on the device. */
  function Apply(d: Device, r: Reaction): (d': Device)
    ensures d'.incoming == d.incoming && d'.delegate == d.delegate
    ensures d'.callbacks == d.callbacks && d'.delivered == d.delivered
  {
    d.(state := if r.setState.Some? then r.setState else d.state,
       status := if r.setStatus.Some? then r.setStatus else d.status,
       writes := d.writes + (if r.write.Some? then [Frames.Write(Frames.AuthChar, r.write.value)] else []),
       queue := d.queue + (if r.enqueue.Some? then [r.enqueue.value] else []))
  }

  /** The device after a call that may have raised. */
  datatype After = After(device: Device, raised: bool)

  /** The device after receiving one notification, whether the handler
      raised, and whether it wrote a frame and so waits again. */
  datatype Step = Step(device: Device, raised: bool, again: bool)

  /** One receive of waitForNotifications: take what arrives next (a
      timeout when nothing does) and, with a delegate installed, hand it to
      handleNotification; without a delegate it is dropped. */
  function Receive(env: Env, d: Device): (s: Step)
    ensures s.device.incoming == if d.incoming == [] then [] else d.incoming[1..]
    ensures s.device.delegate == d.delegate && s.device.callbacks == d.callbacks
    ensures s.device.delivered == d.delivered
    ensures s.again ==> d.incoming != [] && !s.raised
    // a handler that raises has changed nothing
    ensures s.raised ==> d.incoming != [] && s.device == d.(incoming := d.incoming[1..])
    // only a delegate reacts
    ensures !d.delegate ==> !s.raised && !s.again && s.device == d.(incoming := s.device.incoming)
  {
    if d.incoming == [] then Step(d, false, false)
    else
      var p := d.incoming[0];
      var d1 := d.(incoming := d.incoming[1..]);
      if p.None? || !d.delegate then Step(d1, false, false)
      else
        match Dispatch(env.authHandle, env.heartHandle, p.value.handle, p.value.data, env.cipher)
        case Failure(_) => Step(d1, true, false)
        case Success(r) => Step(Apply(d1, r), false, r.write.Some?)
  }

  /** waitForNotifications: one receive; a handler that writes a frame
      waits again before returning, so one call goes on receiving until a
      notification needs no answer, the wait times out, or the handler
      raises. */
  function Wait(env: Env, d: Device): (a: After)
    ensures |a.device.incoming| <= |d.incoming|
    ensures d.incoming != [] ==> |a.device.incoming| < |d.incoming|
    decreases |d.incoming|
  {
    var s := Receive(env, d);
    if s.again then Wait(env, s.device) else After(s.device, s.raised)
  }

  /** A device that drops what it receives, or receives nothing. */
  predicate Quiet(d: Device)
  {
    !d.delegate || d.incoming == []
  }

  /** A wait on a quiet device changes nothing but what is left to
      receive. */
  lemma WaitQuiet(env: Env, d: Device)
    requires Quiet(d)
    ensures !Wait(env, d).raised
    ensures Wait(env, d).device == d.(incoming := Wait(env, d).device.incoming)
    ensures Quiet(Wait(env, d).device)
  {
  }

  // ------------------------------------------------- initialize/authenticate

  datatype LoopOutcome = Decided(ok: bool) | Waiting | Raised

  /** The loop of initialize and authenticate: wait, then stop with True on
      AUTH_OK, go on while the state is None, and stop with False on any
      other state. When nothing more will arrive and the state is still
      None the client would wait for ever: Waiting. */
  function AuthLoop(env: Env, d: Device): (r: (LoopOutcome, Device))
    decreases |d.incoming|
  {
    var a := Wait(env, d);
    if a.raised then (Raised, a.device)
    else if a.device.state.Some? then (Decided(a.device.state == Some(AuthOk)), a.device)
    else if d.incoming == [] then (Waiting, a.device)
    else AuthLoop(env, a.device)
  }

  /** initialize: install the delegate, send the key and wait, then run the
      loop; on success switch the auth notifications off. */
  function InitializeSpec(env: Env, d: Device): (r: (LoopOutcome, Device))
  {
    var d1 := d.(delegate := true, writes := d.writes + [Frames.Write(Frames.AuthChar, SEND_KEY_CMD)]);
    var a := Wait(env, d1);
    if a.raised then (Raised, a.device)
    else
      var r := AuthLoop(env, a.device);
      if r.0 == Decided(true) then
        (r.0, r.1.(writes := r.1.writes + [Frames.Write(Frames.AuthDescriptor, Frames.NOTIFY_OFF)]))
      else r
  }

  /** authenticate: install the delegate, request a random number and wait,
      then run the loop. */
  function AuthenticateSpec(env: Env, d: Device): (r: (LoopOutcome, Device))
  {
    var d1 := d.(delegate := true, writes := d.writes + [Frames.Write(Frames.AuthChar, SEND_RND_CMD)]);
    var a := Wait(env, d1);
    if a.raised then (Raised, a.device) else AuthLoop(env, a.device)
  }

  /** The loop's answer is the state it stops on: True exactly when that
      state is AUTH_OK. It keeps waiting only while the state is None and
      nothing more arrives. */
  lemma {:induction false} AuthLoopOutcome(env: Env, d: Device)
    ensures var r := AuthLoop(env, d);
      && (r.0.Decided? ==> r.1.state.Some? && (r.0.ok <==> r.1.state == Some(AuthOk)))
      && (r.0 == Waiting ==> r.1.state.None? && r.1.incoming == [])
      && (!r.0.Raised? ==> (r.0.Decided? <==> r.1.state.Some?))
    decreases |d.incoming|
  {
    var a := Wait(env, d);
    if !a.raised && a.device.state.None? && d.incoming != [] {
      AuthLoopOutcome(env, a.device);
    }
  }

  /** With nothing to receive and no state yet, the loop waits for ever. */
  lemma NoTrafficWaits(env: Env, d: Device)
    requires d.incoming == [] && d.state.None?
    ensures AuthLoop(env, d) == (Waiting, d)
  {
  }

  /** The state is never reset: once a device has reached AUTH_OK, a later
      authenticate returns True without any answer from the band. */
  lemma AuthenticateAfterSuccess(env: Env, d: Device)
    requires d.state == Some(AuthOk) && d.incoming == []
    ensures AuthenticateSpec(env, d).0 == Decided(true)
  {
  }

  /** The band acknowledges the key: the client requests a random number
      and waits again. */
  lemma KeyAcknowledged(env: Env, d: Device)
    requires d.delegate && d.incoming != []
    requires d.incoming[0] == Some(Notification(env.authHandle, [0x10, 0x01, 0x01]))
    ensures Receive(env, d) == Step(d.(incoming := d.incoming[1..],
                                       writes := d.writes + [Frames.Write(Frames.AuthChar, [0x02, 0x08])]), false, true)
  {
    var n := [0x10, 0x01, 0x01];
    assert Code(n) == n && SEND_RND_CMD == [0x02, 0x08];
  }

  /** The band sends a 16-byte random number: the client answers with its
      encryption and waits again. */
  lemma RandomAnswered(env: Env, d: Device, random: Block)
    requires d.delegate && d.incoming != []
    requires d.incoming[0] == Some(Notification(env.authHandle, [0x10, 0x02, 0x01] + random))
    ensures Receive(env, d) == Step(d.(incoming := d.incoming[1..],
                                       writes := d.writes + [Frames.Write(Frames.AuthChar, [0x03, 0x08] + env.cipher(random))]), false, true)
  {
    var n := [0x10, 0x02, 0x01] + random;
    assert Code(n) == [0x10, 0x02, 0x01] && n[3..] == random;
    assert EncResponse(env.cipher, random) == Some([0x03, 0x08] + env.cipher(random)) by {
      assert random[..16] == random;
    }
  }

  /** The band accepts the answer: the state becomes AUTH_OK. */
  lemma AnswerAccepted(env: Env, d: Device)
    requires d.delegate && d.incoming != []
    requires d.incoming[0] == Some(Notification(env.authHandle, [0x10, 0x03, 0x01]))
    ensures Receive(env, d) == Step(d.(incoming := d.incoming[1..], state := Some(AuthOk)), false, false)
  {
    var n := [0x10, 0x03, 0x01];
    assert Code(n) == n;
  }

  /** The first-pairing handshake: after the key, the band asks for a
      random-number request, sends the random number, and accepts the
      encrypted answer; initialize returns True and switches the auth
      notifications off. */
  lemma Handshake(env: Env, d: Device, random: Block)
    requires d.state.None? && d.queue == []
    requires d.incoming == [
      Some(Notification(env.authHandle, [0x10, 0x01, 0x01])),
      Some(Notification(env.authHandle, [0x10, 0x02, 0x01] + random)),
      Some(Notification(env.authHandle, [0x10, 0x03, 0x01]))]
    ensures var r := InitializeSpec(env, d);
      && r.0 == Decided(true)
      && r.1.state == Some(AuthOk) && r.1.queue == [] && r.1.incoming == []
      && r.1.writes == d.writes + [
           Frames.Write(Frames.AuthChar, SEND_KEY_CMD),
           Frames.Write(Frames.AuthChar, [0x02, 0x08]),
           Frames.Write(Frames.AuthChar, [0x03, 0x08] + env.cipher(random)),
           Frames.Write(Frames.AuthDescriptor, Frames.NOTIFY_OFF)]
  {
    var d1 := d.(delegate := true, writes := d.writes + [Frames.Write(Frames.AuthChar, SEND_KEY_CMD)]);
    KeyAcknowledged(env, d1);
    var d2 := Receive(env, d1).device;
    RandomAnswered(env, d2, random);
    var d3 := Receive(env, d2).device;
    AnswerAccepted(env, d3);
    var d4 := Receive(env, d3).device;
    assert d4.incoming == [];
    assert Wait(env, d3) == After(d4, false);
    assert Wait(env, d2) == After(d4, false);
    assert Wait(env, d1) == After(d4, false);
    assert Wait(env, d4) == After(d4, false);
    assert AuthLoop(env, d4) == (Decided(true), d4);
    var key := Frames.Write(Frames.AuthChar, SEND_KEY_CMD);
    var request := Frames.Write(Frames.AuthChar, [0x02, 0x08]);
    var answer := Frames.Write(Frames.AuthChar, [0x03, 0x08] + env.cipher(random));
    var off := Frames.Write(Frames.AuthDescriptor, Frames.NOTIFY_OFF);
    assert d4.writes == d.writes + [key] + [request] + [answer];
    Append4(d.writes, key, request, answer, off);
    assert InitializeSpec(env, d) == (Decided(true), d4.(writes := d4.writes + [off]));
  }

  // ---------------------------------------------------------------- queue

  /** What _parse_queue does with one entry: call the matching callback, if
      it is set, with the decoded payload; decoding can raise. */
  function Deliver(e: Entry, cb: Callbacks): (r: Result<Option<Delivery>, Codec.ParseError>)
    ensures r.Failure? ==> r.error == Codec.LengthMismatch
    ensures e.kind == Heart && cb.heartMeasure ==>
      && (r.Failure? <==> |e.payload| != 2)
      && (r.Success? ==> r.value == Some(HeartRate(Int8(e.payload[1]))))
    ensures e.kind == RawHeart && cb.heartRaw ==>
      && (r.Failure? <==> |e.payload| != 16)
      && (r.Success? ==> r.value == Some(HeartRawSamples(Codec.ParseRawHeart(e.payload).value)))
    ensures e.kind == RawAccel && cb.accelRaw ==>
      && (r.Failure? <==> |e.payload| < 20)
      && (r.Success? ==> r.value == Some(AccelRawGroups(Codec.ParseRawAccel(e.payload).value)))
    ensures !Selected(e, cb) ==> r == Success(None)
  {
    if cb.heartMeasure && e.kind == Heart then
      match Codec.ParseHeartMeasure(e.payload)
      case Failure(err) => Failure(err)
      case Success(v) => Success(Some(HeartRate(v)))
    else if cb.heartRaw && e.kind == RawHeart then
      match Codec.ParseRawHeart(e.payload)
      case Failure(err) => Failure(err)
      case Success(v) => Success(Some(HeartRawSamples(v)))
    else if cb.accelRaw && e.kind == RawAccel then
      match Codec.ParseRawAccel(e.payload)
      case Failure(err) => Failure(err)
      case Success(v) => Success(Some(AccelRawGroups(v)))
    else Success(None)
  }

  /** Whether the callback for the entry's kind is set. */
  predicate Selected(e: Entry, cb: Callbacks)
  {
    || (e.kind == Heart && cb.heartMeasure)
    || (e.kind == RawHeart && cb.heartRaw)
    || (e.kind == RawAccel && cb.accelRaw)
  }

  /** The callback calls one entry makes when it decodes: none or one. */
  function Output(e: Entry, cb: Callbacks): seq<Delivery>
  {
    match Deliver(e, cb)
    case Success(Some(v)) => [v]
    case _ => []
  }

  /** The callback calls of a queue's entries, in queue order. */
  function Outputs(q: seq<Entry>, cb: Callbacks): seq<Delivery>
    decreases |q|
  {
    if q == [] then [] else Output(q[0], cb) + Outputs(q[1..], cb)
  }

  /** The outcome of draining a queue. */
  datatype Drained = Drained(delivered: seq<Delivery>, rest: seq<Entry>, raised: bool)

  /** _parse_queue: take entries from the front until the queue is empty;
      an entry whose decoding raises ends the call, leaving the entries
      behind it in the queue. */
  function Drain(q: seq<Entry>, cb: Callbacks): (r: Drained)
    decreases |q|
  {
    if q == [] then Drained([], [], false)
    else
      match Deliver(q[0], cb)
      case Failure(_) => Drained([], q[1..], true)
      case Success(out) =>
        var r := Drain(q[1..], cb);
        Drained((if out.Some? then [out.value] else []) + r.delivered, r.rest, r.raised)
  }

  /** One step of the drain: the front entry either raises or adds its
      callback calls in front of those of the rest. */
  lemma DrainStep(q: seq<Entry>, cb: Callbacks)
    requires q != []
    ensures Deliver(q[0], cb).Failure? ==> Drain(q, cb) == Drained([], q[1..], true)
    ensures Deliver(q[0], cb).Success? ==> var r := Drain(q[1..], cb);
      Drain(q, cb) == Drained(Output(q[0], cb) + r.delivered, r.rest, r.raised)
  {
  }

  /** Draining empties the queue and makes every callback call of the
      queue in order, unless an entry raises; then exactly the entries
      after it are left. At most one callback runs per entry. */
  lemma {:induction false} DrainOutcome(q: seq<Entry>, cb: Callbacks)
    ensures var r := Drain(q, cb);
      && (!r.raised ==> r.rest == [] && r.delivered == Outputs(q, cb))
      && (r.raised ==> |r.rest| < |q| && r.rest == q[|q| - |r.rest|..])
      && (r.raised <==> exists i :: 0 <= i < |q| && Deliver(q[i], cb).Failure?)
      && |r.delivered| <= |q|
    decreases |q|
  {
    if q != [] {
      DrainStep(q, cb);
      DrainOutcome(q[1..], cb);
      if Deliver(q[0], cb).Success? {
        var r := Drain(q[1..], cb);
        if r.raised {
          var i :| 0 <= i < |q[1..]| && Deliver(q[1..][i], cb).Failure?;
          assert Deliver(q[i + 1], cb).Failure?;
        } else {
          forall i | 0 <= i < |q| ensures Deliver(q[i], cb).Success? {
            if i > 0 { assert q[i] == q[1..][i - 1]; }
          }
        }
      }
    }
  }

  /** When the drain raises, the entry taken last is the first one in the
      queue that fails to decode, and the callback calls are exactly those
      of the entries before it, in order. */
  lemma {:induction false} DrainStopsAtFirstFailure(q: seq<Entry>, cb: Callbacks)
    ensures var r := Drain(q, cb);
      r.raised ==> var k := |q| - |r.rest| - 1;
        && 0 <= k < |q|
        && Deliver(q[k], cb).Failure?
        && (forall j :: 0 <= j < k ==> Deliver(q[j], cb).Success?)
        && r.delivered == Outputs(q[..k], cb)
    decreases |q|
  {
    if q != [] && Deliver(q[0], cb).Success? {
      var r := Drain(q[1..], cb);
      if r.raised {
        DrainStopsAtFirstFailure(q[1..], cb);
        var k := |q| - |r.rest| - 1;
        assert q[k] == q[1..][k - 1];
        forall j | 0 <= j < k ensures Deliver(q[j], cb).Success? {
          if j > 0 { assert q[j] == q[1..][j - 1]; }
        }
        assert q[..k][0] == q[0] && q[..k][1..] == q[1..][..k - 1];
      }
    } else if q != [] {
      assert q[..0] == [];
    }
  }

  /** Heart-rate samples reach the callback in the order they were queued. */
  lemma {:induction false} DrainHeartInOrder(q: seq<Entry>, cb: Callbacks)
    requires cb.heartMeasure
    requires forall i :: 0 <= i < |q| ==> q[i].kind == Heart && |q[i].payload| == 2
    ensures var r := Drain(q, cb);
      && !r.raised && |r.delivered| == |q|
      && forall i :: 0 <= i < |q| ==> r.delivered[i] == HeartRate(Int8(q[i].payload[1]))
    decreases |q|
  {
    if q != [] {
      DrainHeartInOrder(q[1..], cb);
    }
  }

  /** Raw entries put on the queue by the handler always decode; only a
      heart-rate payload that is not two bytes long can make the drain
      raise. */
  lemma EnqueuedRawEntriesDecode(env: Env, hnd: int, data: Bytes, cb: Callbacks)
    requires var r := Dispatch(env.authHandle, env.heartHandle, hnd, data, env.cipher);
      r.Success? && r.value.enqueue.Some? && r.value.enqueue.value.kind != Heart
    ensures Deliver(Dispatch(env.authHandle, env.heartHandle, hnd, data, env.cipher).value.enqueue.value, cb).Success?
  {
  }

  /** A heart-rate payload of any length other than two makes the drain
      raise when the heart callback is set, and leaves nothing behind. */
  lemma LongHeartPayloadRaises(cb: Callbacks, p: Bytes)
    requires cb.heartMeasure && |p| != 2
    ensures var r := Drain([Entry(Heart, p)], cb);
      r.raised && r.rest == [] && r.delivered == []
  {
  }

  // ---------------------------------------------------------------- realtime

  /** One pass of the start_raw_data_realtime loop: wait, drain the queue
      into the callbacks, and send the keep-alive when twelve seconds have
      passed (the clock is the parameter pingDue). */
  function RealtimeTick(env: Env, d: Device, pingDue: bool): (a: After)
  {
    var w := Wait(env, d);
    if w.raised then w
    else
      var r := Drain(w.device.queue, w.device.callbacks);
      var d2 := w.device.(queue := r.rest, delivered := w.device.delivered + r.delivered);
      if r.raised then After(d2, true)
      else After(d2.(writes := d2.writes + (if pingDue then [Frames.PING] else [])), false)
  }

  /** With no callbacks the queue is emptied and nothing is delivered. */
  lemma {:induction false} DrainWithoutCallbacks(q: seq<Entry>)
    ensures Drain(q, NO_CALLBACKS) == Drained([], [], false)
    decreases |q|
  {
    if q != [] {
      DrainWithoutCallbacks(q[1..]);
    }
  }

  /** A tick on a quiet device delivers the whole queue when no entry
      fails to decode, and then sends the keep-alive if it is due. */
  lemma RealtimeQuietTick(env: Env, d: Device, pingDue: bool)
    requires Quiet(d)
    requires forall i :: 0 <= i < |d.queue| ==> Deliver(d.queue[i], d.callbacks).Success?
    ensures var a := RealtimeTick(env, d, pingDue);
      && !a.raised && a.device.queue == []
      && a.device.delivered == d.delivered + Drain(d.queue, d.callbacks).delivered
      && a.device.writes == d.writes + (if pingDue then [Frames.PING] else [])
  {
    WaitQuiet(env, d);
    DrainOutcome(d.queue, d.callbacks);
  }

  // ---------------------------------------------------------------- DFU

  /** dfuUpdate: write the prelude (metadata frame, 03, the chunks and
      00); wait; write the checksum frame; and for firmware wait again and
      write 05. Packing a size of 2^31 or more raises before anything is
      written. */
  function DfuSpec(env: Env, d: Device, fileName: string, file: Bytes): (a: After)
  {
    var kind := Dfu.Kind(Dfu.Extension(fileName));
    match Dfu.MetaFrame(kind, |file|)
    case Failure(_) => After(d, true)
    case Success(meta) =>
      Transfer(env, d.(writes := d.writes + Dfu.Prelude(meta, file)),
               Dfu.Control(Dfu.ChecksumFrame(Crc16.Crc(file))), kind == Dfu.Firmware)
  }

  /** The part of dfuUpdate after the prelude. */
  function Transfer(env: Env, d: Device, checksum: Frames.Write, firmware: bool): (a: After)
  {
    var a := Wait(env, d);
    if a.raised then a
    else
      var d2 := a.device.(writes := a.device.writes + [checksum]);
      if !firmware then After(d2, false)
      else
        var b := Wait(env, d2);
        if b.raised then b
        else After(b.device.(writes := b.device.writes + [Dfu.Control([0x05])]), false)
  }

  /** On a quiet device the two waits change nothing. */
  lemma TransferQuiet(env: Env, d: Device, checksum: Frames.Write, firmware: bool)
    requires Quiet(d)
    ensures var a := Transfer(env, d, checksum, firmware);
      && !a.raised
      && a.device == d.(incoming := a.device.incoming,
                        writes := d.writes + [checksum] + (if firmware then [Dfu.Control([0x05])] else []))
  {
    WaitQuiet(env, d);
    var a := Wait(env, d);
    if firmware {
      WaitQuiet(env, a.device.(writes := a.device.writes + [checksum]));
    }
  }

  /** The quiet transfer after a given prelude writes the assembled
      sequence. */
  lemma QuietTransferWrites(env: Env, d: Device, meta: Option<Bytes>, kind: Dfu.FileKind, file: Bytes)
    requires Quiet(d)
    ensures var a := Transfer(env, d.(writes := d.writes + Dfu.Prelude(meta, file)),
                              Dfu.Control(Dfu.ChecksumFrame(Crc16.Crc(file))), kind == Dfu.Firmware);
      !a.raised && a.device.writes == d.writes + Dfu.Assemble(meta, kind, file)
  {
    var prelude := Dfu.Prelude(meta, file);
    var checksum := Dfu.Control(Dfu.ChecksumFrame(Crc16.Crc(file)));
    var tail := if kind == Dfu.Firmware then [Dfu.Control([0x05])] else [];
    TransferQuiet(env, d.(writes := d.writes + prelude), checksum, kind == Dfu.Firmware);
    Dfu.AssembleSplit(meta, kind, file);
    Append3(d.writes, prelude, [checksum], tail);
  }

  /** When nothing answers during the update, the writes are exactly the
      update's own write sequence. */
  lemma DfuQuiet(env: Env, d: Device, fileName: string, file: Bytes)
    requires Quiet(d)
    requires Dfu.DfuWrites(fileName, file).Success?
    ensures var a := DfuSpec(env, d, fileName, file);
      !a.raised && a.device.writes == d.writes + Dfu.DfuWrites(fileName, file).value
  {
    var kind := Dfu.Kind(Dfu.Extension(fileName));
    var meta := Dfu.MetaFrame(kind, |file|).value;
    assert DfuSpec(env, d, fileName, file)
      == Transfer(env, d.(writes := d.writes + Dfu.Prelude(meta, file)),
                  Dfu.Control(Dfu.ChecksumFrame(Crc16.Crc(file))), kind == Dfu.Firmware);
    assert Dfu.DfuWrites(fileName, file).value == Dfu.Assemble(meta, kind, file);
    QuietTransferWrites(env, d, meta, kind, file);
  }

  // ---------------------------------------------------------------- object

  class MiBand3 {
    const env: Env
    var state: Option<AuthState>
    var status: Option<AuthState>
    var queue: seq<Entry>
    var writes: seq<Frames.Write>
    var incoming: seq<Option<Notification>>
    var delegate: bool
    var callbacks: Callbacks
    var delivered: seq<Delivery>

    function View(): Device
      reads this
    {
      Device(state, status, queue, writes, incoming, delegate, callbacks, delivered)
    }

    /** __init__: no state, an empty queue, no callbacks; switch the auth
        notifications on, then wait once with no delegate installed. */
    constructor (env: Env, incoming: seq<Option<Notification>>)
      ensures this.env == env
      ensures View() == Device(None, None, [], [Frames.Write(Frames.AuthDescriptor, Frames.NOTIFY_ON)],
                               if incoming == [] then [] else incoming[1..], false, NO_CALLBACKS, [])
    {
      this.env := env;
      state, status, queue := None, None, [];
      writes := [Frames.Write(Frames.AuthDescriptor, Frames.NOTIFY_ON)];
      delegate, callbacks, delivered := false, NO_CALLBACKS, [];
      this.incoming := if incoming == [] then [] else incoming[1..];
    }

    /** One receive, and the handler's changes to the fields. */
    method ReceiveOne() returns (raised: bool, again: bool)
      modifies this
      ensures Receive(env, old(View())) == Step(View(), raised, again)
    {
      raised, again := false, false;
      if incoming == [] {
        return;
      }
      var p := incoming[0];
      incoming := incoming[1..];
      if p.None? || !delegate {
        return;
      }
      var r := Dispatch(env.authHandle, env.heartHandle, p.value.handle, p.value.data, env.cipher);
      if r.Failure? {
        raised := true;
        return;
      }
      var reaction := r.value;
      ghost var d1 := View();
      if reaction.setState.Some? {
        state := reaction.setState;
      }
      if reaction.setStatus.Some? {
        status := reaction.setStatus;
      }
      if reaction.write.Some? {
        writes := writes + [Frames.Write(Frames.AuthChar, reaction.write.value)];
      }
      if reaction.enqueue.Some? {
        queue := queue + [reaction.enqueue.value];
      }
      again := reaction.write.Some?;
      assert View() == Apply(d1, reaction);
    }

    /** waitForNotifications, with the handler's own waits run in the same
        loop. */
    method WaitForNotifications() returns (raised: bool)
      modifies this
      ensures Wait(env, old(View())) == After(View(), raised)
    {
      var again := true;
      raised := false;
      while again
        invariant again ==> Wait(env, old(View())) == Wait(env, View()) && !raised
        invariant !again ==> Wait(env, old(View())) == After(View(), raised)
        decreases |incoming|, again
      {
        raised, again := ReceiveOne();
      }
    }

    /** The loop shared by initialize and authenticate. */
    method RunAuthLoop() returns (outcome: LoopOutcome)
      modifies this
      ensures AuthLoop(env, old(View())) == (outcome, View())
    {
      ghost var target := AuthLoop(env, View());
      while true
        invariant AuthLoop(env, View()) == target
        decreases |incoming|
      {
        var hadTraffic := incoming != [];
        var raised := WaitForNotifications();
        if raised {
          return Raised;
        }
        if state == Some(AuthOk) {
          return Decided(true);
        } else if state.Some? {
          return Decided(false);
        } else if !hadTraffic {
          return Waiting;
        }
      }
    }

    method Initialize() returns (outcome: LoopOutcome)
      modifies this
      ensures InitializeSpec(env, old(View())) == (outcome, View())
    {
      delegate := true;
      writes := writes + [Frames.Write(Frames.AuthChar, SEND_KEY_CMD)];
      var raised := WaitForNotifications();
      if raised {
        return Raised;
      }
      outcome := RunAuthLoop();
      if outcome == Decided(true) {
        writes := writes + [Frames.Write(Frames.AuthDescriptor, Frames.NOTIFY_OFF)];
      }
    }

    method Authenticate() returns (outcome: LoopOutcome)
      modifies this
      ensures AuthenticateSpec(env, old(View())) == (outcome, View())
    {
      delegate := true;
      writes := writes + [Frames.Write(Frames.AuthChar, SEND_RND_CMD)];
      var raised := WaitForNotifications();
      if raised {
        return Raised;
      }
      outcome := RunAuthLoop();
    }

    /** _get_from_queue(type): take the head; return its payload if it has
        the requested type, otherwise put it back at the tail. */
    method GetFromQueue(kind: QueueKind) returns (payload: Option<Bytes>)
      modifies this`queue
      ensures old(queue) == [] ==> payload.None? && queue == []
      ensures old(queue) != [] && old(queue)[0].kind == kind ==>
        payload == Some(old(queue)[0].payload) && queue == old(queue)[1..]
      ensures old(queue) != [] && old(queue)[0].kind != kind ==>
        payload.None? && queue == old(queue)[1..] + [old(queue)[0]]
      ensures payload.None? ==> multiset(queue) == multiset(old(queue)) && |queue| == |old(queue)|
    {
      if queue == [] {
        return None;
      }
      var head := queue[0];
      queue := queue[1..];
      if head.kind != kind {
        queue := queue + [head];
        assert old(queue) == [head] + queue[..|queue| - 1];
        return None;
      }
      return Some(head.payload);
    }

    /** _parse_queue. */
    method ParseQueue() returns (raised: bool)
      modifies this`queue, this`delivered
      ensures var r := Drain(old(queue), callbacks);
        queue == r.rest && delivered == old(delivered) + r.delivered && raised == r.raised
    {
      ghost var target := Drain(queue, callbacks);
      raised := false;
      while queue != [] && !raised
        invariant !raised ==> var r := Drain(queue, callbacks);
          && old(delivered) + target.delivered == delivered + r.delivered
          && target.rest == r.rest && target.raised == r.raised
        invariant raised ==>
          old(delivered) + target.delivered == delivered && target.rest == queue && target.raised
        decreases |queue|
      {
        var entry := queue[0];
        DrainStep(queue, callbacks);
        queue := queue[1..];
        var outcome := Deliver(entry, callbacks);
        if outcome.Failure? {
          raised := true;
        } else {
          Assoc(delivered, Output(entry, callbacks), Drain(queue, callbacks).delivered);
          delivered := delivered + Output(entry, callbacks);
        }
      }
    }

    /** One pass of the start_raw_data_realtime loop. */
    method RealtimeStep(pingDue: bool) returns (raised: bool)
      modifies this
      ensures RealtimeTick(env, old(View()), pingDue) == After(View(), raised)
    {
      raised := WaitForNotifications();
      if raised {
        return;
      }
      raised := ParseQueue();
      if raised {
        return;
      }
      if pingDue {
        writes := writes + [Frames.PING];
      }
    }

    /** start_raw_data_realtime up to its polling loop: each given callback
        is installed (an absent one keeps the current one), then the set-up
        frames are written. */
    method StartRawDataRealtime(given: Callbacks)
      modifies this
      ensures View() == old(View()).(
        callbacks := Callbacks(old(callbacks).heartMeasure || given.heartMeasure,
                               old(callbacks).heartRaw || given.heartRaw,
                               old(callbacks).accelRaw || given.accelRaw),
        writes := old(writes) + Frames.RealtimeStartWrites())
    {
      callbacks := Callbacks(callbacks.heartMeasure || given.heartMeasure,
                             callbacks.heartRaw || given.heartRaw,
                             callbacks.accelRaw || given.accelRaw);
      writes := writes + Frames.RealtimeStartWrites();
    }

    method StopRealtime()
      modifies this
      ensures View() == old(View()).(callbacks := NO_CALLBACKS, writes := old(writes) + Frames.RealtimeStopWrites())
    {
      writes := writes + Frames.RealtimeStopWrites();
      callbacks := NO_CALLBACKS;
    }

    method SetEncoding(encoding: Bytes)
      modifies this`writes
      ensures writes == old(writes) + [Frames.Write(Frames.Configuration, Frames.EncodingPacket(encoding))]
    {
      writes := writes + [Frames.Write(Frames.Configuration, Frames.EncodingPacket(encoding))];
    }

    method SetHeartMonitorSleepSupport(enabled: bool, interval: int)
      modifies this`writes
      ensures writes == old(writes) + Frames.HeartSleepWrites(enabled, interval)
    {
      writes := writes + Frames.HeartSleepWrites(enabled, interval);
    }

    method SendAlert(alert: Bytes)
      modifies this`writes
      ensures writes == old(writes) + [Frames.Write(Frames.Alert, alert)]
    {
      writes := writes + [Frames.Write(Frames.Alert, alert)];
    }

    method LeftTurn()
      modifies this`writes
      ensures writes == old(writes) + [Frames.Write(Frames.CustomAlert, Frames.LEFT_TURN)]
    {
      writes := writes + [Frames.Write(Frames.CustomAlert, Frames.LEFT_TURN)];
    }

    method RightTurn()
      modifies this`writes
      ensures writes == old(writes) + [Frames.Write(Frames.CustomAlert, Frames.RIGHT_TURN)]
    {
      writes := writes + [Frames.Write(Frames.CustomAlert, Frames.RIGHT_TURN)];
    }

    /** change_date with the values it reads from the console given as
        parameters, writing the corrected eleven-byte frame. Like the
        source, it does not check that they form a valid date. */
    method ChangeDate(year: nat, month: nat, day: nat, hour: nat, minute: nat, second: nat)
      requires Frames.DateBytes(year, month, day, hour, minute, second)
      modifies this`writes
      ensures writes == old(writes) + [Frames.Write(Frames.CurrentTime, Frames.ChangeDateFrame(year, month, day, hour, minute, second))]
    {
      writes := writes + [Frames.Write(Frames.CurrentTime, Frames.ChangeDateFrame(year, month, day, hour, minute, second))];
    }

    /** send_custom_alert with the text typed at the console given as
        phone; an unknown type raises before anything is written. */
    method SendCustomAlert(alertType: int, phone: Bytes) returns (raised: bool)
      modifies this`writes
      ensures raised <==> alertType !in {3, 4, 5}
      ensures raised ==> writes == old(writes)
      ensures !raised ==> writes == old(writes) + [Frames.Write(Frames.CustomAlert, [alertType, 0x01] + phone)]
    {
      var frame := Frames.CustomAlertFrame(alertType, phone);
      if frame.None? {
        return true;
      }
      assert frame.value == frame.value[..2] + frame.value[2..];
      writes := writes + [Frames.Write(Frames.CustomAlert, frame.value)];
      return false;
    }

    /** dfuUpdate on a file given by its name and its bytes. */
    method DfuUpdate(fileName: string, file: Bytes) returns (raised: bool)
      modifies this
      ensures DfuSpec(env, old(View()), fileName, file) == After(View(), raised)
    {
      var kind := Dfu.Kind(Dfu.Extension(fileName));
      var crc := Crc16.Compute(file);
      var meta := Dfu.MetaFrame(kind, |file|);
      if meta.Failure? {
        return true;
      }
      WritePrelude(meta.value, file);
      raised := FinishTransfer(Dfu.Control(Dfu.ChecksumFrame(crc)), kind == Dfu.Firmware);
    }

    /** The writes of dfuUpdate before its first wait. */
    method WritePrelude(meta: Option<Bytes>, file: Bytes)
      modifies this`writes
      ensures writes == old(writes) + Dfu.Prelude(meta, file)
    {
      var head := if meta.Some? then [Dfu.Control(meta.value)] else [];
      writes := writes + (head + [Dfu.Control([0x03])]);
      WriteChunks(file);
      writes := writes + [Dfu.Control([0x00])];
      Append3(old(writes), head + [Dfu.Control([0x03])], Dfu.DataWrites(Dfu.Chunks(file)), [Dfu.Control([0x00])]);
    }

    /** The read loop of dfuUpdate: twenty bytes at a time, each written
        to the data characteristic, until the file is exhausted. */
    method WriteChunks(file: Bytes)
      modifies this`writes
      ensures writes == old(writes) + Dfu.DataWrites(Dfu.Chunks(file))
    {
      ghost var chunks := Dfu.Chunks(file);
      var off := 0;
      ghost var k := 0;
      while off < |file|
        invariant 0 <= k <= |chunks| && off == Min(20 * k, |file|)
        invariant writes == old(writes) + Dfu.DataWrites(chunks[..k])
      {
        Dfu.ChunkAt(file, k);
        var chunk := file[off..Min(off + 20, |file|)];
        writes := writes + [Frames.Write(Frames.DfuData, chunk)];
        assert Dfu.DataWrites(chunks[..k + 1]) == Dfu.DataWrites(chunks[..k]) + [Frames.Write(Frames.DfuData, chunk)];
        off, k := off + |chunk|, k + 1;
      }
      assert chunks[..k] == chunks;
    }

    /** The waits and the closing frames of dfuUpdate. */
    method FinishTransfer(checksum: Frames.Write, firmware: bool) returns (raised: bool)
      modifies this
      ensures Transfer(env, old(View()), checksum, firmware) == After(View(), raised)
    {
      raised := WaitForNotifications();
      if raised {
        return;
      }
      writes := writes + [checksum];
      if firmware {
        raised := WaitForNotifications();
        if raised {
          return;
        }
        writes := writes + [Dfu.Control([0x05])];
      }
    }
  }
}
