/** The authentication handshake frames and auth.py
    AuthenticationDelegate.handleNotification: given the handle and payload
    of one notification, what the handler does to the device (assign its
    state, write a frame to the auth characteristic, enqueue an entry, or
    only log). AES is a parameter: a function on 16-byte blocks. */
module Delegate {
  import opened Wire

  /** The outcomes of the handshake the handler records. */
  datatype AuthState = AuthOk | AuthFailed | KeySendingFailed | RequestRnError | EncryptionKeyFailed

  /** The kinds of queued sensor data. */
  datatype QueueKind = Heart | RawAccel | RawHeart

  /** A queue entry: its kind and the notification payload, unchanged. */
  datatype Entry = Entry(kind: QueueKind, payload: Bytes)

  /** MiBand3._KEY, the shared secret sent to the band on first pairing. */
  const KEY: Bytes := [0x01, 0x23, 0x45, 0x67, 0x89, 0x01, 0x22, 0x23,
                       0x34, 0x45, 0x56, 0x67, 0x78, 0x89, 0x90, 0x02]

  /** _send_key_cmd, _send_rnd_cmd and _send_enc_key, each packed with
      '<Ns' to its stated length. */
  const SEND_KEY_CMD: Bytes := PadTo([0x01, 0x08] + KEY, 18)
  const SEND_RND_CMD: Bytes := PadTo([0x02, 0x08], 2)
  const SEND_ENC_KEY: Bytes := PadTo([0x03, 0x08], 2)

  /** The key frame is the 18 bytes 01 08 followed by the whole key. */
  lemma KeyFrameLayout()
    ensures |SEND_KEY_CMD| == 18
    ensures SEND_KEY_CMD[..2] == [0x01, 0x08] && SEND_KEY_CMD[2..] == KEY
  {
  }

  // -------------------------------------------------------------- cipher

  type Block = b: Bytes | |b| == 16 witness [0, 0, 0, 0, 0, 0, 0, 0, 0, 0, 0, 0, 0, 0, 0, 0]

  /** AES-128 under KEY, one block at a time (the cipher itself is not modelled). */
  type Cipher = Block -> Block

  /** The 16-byte block number k of s. */
  function BlockAt(s: Bytes, k: nat): (b: Block)
    requires 16 * k + 16 <= |s|
  {
    s[16 * k..16 * k + 16]
  }

  /** ECB encryption of a message (AES.MODE_ECB): block by block, and an
      error (None) when the length is not a multiple of the block size. */
  function Ecb(cipher: Cipher, data: Bytes): (r: Option<Bytes>)
    ensures r.Some? <==> |data| % 16 == 0
    ensures r.Some? ==> |r.value| == |data|
    ensures r.Some? ==> forall k: nat :: 16 * k + 16 <= |data| ==>
      BlockAt(r.value, k) == cipher(BlockAt(data, k))
    decreases |data|
  {
    if |data| % 16 != 0 then None
    else if data == [] then Some([])
    else
      var rest := Ecb(cipher, data[16..]);
      var out := cipher(data[..16]) + rest.value;
      assert forall k: nat :: 16 * k + 16 <= |data| ==> BlockAt(out, k) == cipher(BlockAt(data, k)) by {
        forall k: nat | 16 * k + 16 <= |data|
          ensures BlockAt(out, k) == cipher(BlockAt(data, k))
        {
          if k > 0 {
            assert BlockAt(out, k) == BlockAt(rest.value, k - 1);
            assert BlockAt(data, k) == BlockAt(data[16..], k - 1);
          }
        }
      }
      Some(out)
  }

  /** _send_enc_rdn: 03 08 followed by the encrypted random number, packed
      with '<18s'; the encryption fails unless the length is a multiple of
      16. Only the first ciphertext block fits in the frame. */
  function EncResponse(cipher: Cipher, random: Bytes): (r: Option<Bytes>)
    ensures r.Some? <==> |random| % 16 == 0
    ensures r.Some? ==> |r.value| == 18 && r.value[..2] == [0x03, 0x08]
    ensures r.Some? && |random| >= 16 ==> r.value[2..] == cipher(random[..16])
    ensures r.Some? && random == [] ==> r.value[2..] == seq(16, _ => 0)
  {
    match Ecb(cipher, random)
    case None => None
    case Some(enc) =>
      assert |random| >= 16 ==> BlockAt(enc, 0) == cipher(BlockAt(random, 0));
      Some(PadTo(SEND_ENC_KEY + enc, 18))
  }

  // -------------------------------------------------------------- handler

  /** What handling one notification does to the device. */
  datatype Reaction = Reaction(
    setState: Option<AuthState>,   // the value assigned to device.state, if any
    setStatus: Option<AuthState>,  // the value assigned to device.status, if any
    write: Option<Bytes>,          // a frame written to the auth characteristic, then a wait
    enqueue: Option<Entry>,        // an entry put on the queue
    logged: bool)                  // "Unhandled Response" logged

  const IGNORE: Reaction := Reaction(None, None, None, None, false)

  /** The one exception the handler can raise: AES on a random number whose
      length is not a multiple of 16. */
  datatype HandlerError = CipherLength

  /** The first three bytes of a payload, data[:3]. */
  function Code(data: Bytes): (c: Bytes)
    ensures |c| == Min(3, |data|) && c == data[..|c|]
  {
    Slice(data, 0, 3)
  }

  /** The auth-characteristic branch of handleNotification. */
  function AuthReaction(data: Bytes, cipher: Cipher): (r: Result<Reaction, HandlerError>)
    ensures r.Failure? <==> Code(data) == [0x10, 0x02, 0x01] && (|data| - 3) % 16 != 0
    ensures r.Success? ==> r.value.enqueue.None? && !r.value.logged
    // every notification either settles the state or answers with a frame
    ensures r.Success? ==> (r.value.setState.Some? <==> r.value.write.None?)
    ensures r.Success? ==> (r.value.setState == Some(AuthOk) <==> Code(data) == [0x10, 0x03, 0x01])
    ensures r.Success? ==> (r.value.setStatus.Some? <==> Code(data) == [0x10, 0x03, 0x04])
    ensures Code(data) == [0x10, 0x01, 0x01] ==> r == Success(IGNORE.(write := Some([0x02, 0x08])))
    ensures Code(data) == [0x10, 0x02, 0x01] && r.Success? ==>
      r.value.write == EncResponse(cipher, data[3..])
    ensures Code(data) == [0x10, 0x03, 0x04] ==>
      r == Success(IGNORE.(setStatus := Some(EncryptionKeyFailed), write := Some(SEND_KEY_CMD)))
    ensures Code(data) == [0x10, 0x01, 0x04] ==> r == Success(IGNORE.(setState := Some(KeySendingFailed)))
    ensures Code(data) == [0x10, 0x02, 0x04] ==> r == Success(IGNORE.(setState := Some(RequestRnError)))
    ensures Code(data) !in {[0x10, 0x01, 0x01], [0x10, 0x01, 0x04], [0x10, 0x02, 0x01],
                            [0x10, 0x02, 0x04], [0x10, 0x03, 0x01], [0x10, 0x03, 0x04]} ==>
      r == Success(IGNORE.(setState := Some(AuthFailed)))
  {
    var code := Code(data);
    if code == [0x10, 0x01, 0x01] then Success(IGNORE.(write := Some(SEND_RND_CMD)))
    else if code == [0x10, 0x01, 0x04] then Success(IGNORE.(setState := Some(KeySendingFailed)))
    else if code == [0x10, 0x02, 0x01] then
      match EncResponse(cipher, data[3..])
      case None => Failure(CipherLength)
      case Some(frame) => Success(IGNORE.(write := Some(frame)))
    else if code == [0x10, 0x02, 0x04] then Success(IGNORE.(setState := Some(RequestRnError)))
    else if code == [0x10, 0x03, 0x01] then Success(IGNORE.(setState := Some(AuthOk)))
    else if code == [0x10, 0x03, 0x04] then
      Success(IGNORE.(setStatus := Some(EncryptionKeyFailed), write := Some(SEND_KEY_CMD)))
    else Success(IGNORE.(setState := Some(AuthFailed)))
  }

  /** The handle of raw sensor notifications, fixed in the client. */
  const SENSOR_HANDLE: int := 0x38

  /** handleNotification(hnd, data): the auth characteristic's handle is
      tested first, then the heart-rate measurement's, then 0x38; anything
      else is only logged. */
  function Dispatch(authHandle: int, heartHandle: int, hnd: int, data: Bytes, cipher: Cipher)
    : (r: Result<Reaction, HandlerError>)
    ensures hnd == authHandle ==> r == AuthReaction(data, cipher)
    ensures r.Failure? ==> hnd == authHandle
    // only the auth characteristic touches the state, status or writes
    ensures hnd != authHandle ==>
      r.Success? && r.value.setState.None? && r.value.setStatus.None? && r.value.write.None?
    // at most one entry, carrying the payload unchanged
    ensures r.Success? && r.value.enqueue.Some? ==> r.value.enqueue.value.payload == data
    ensures r.Success? && r.value.enqueue.Some? ==> hnd != authHandle
    ensures hnd != authHandle && hnd == heartHandle ==> r.value.enqueue == Some(Entry(Heart, data))
    ensures hnd != authHandle && hnd != heartHandle && hnd == SENSOR_HANDLE ==>
      && !r.value.logged
      && (r.value.enqueue.Some? <==> (|data| == 20 && data[0] == 1) || |data| == 16)
      && (r.value.enqueue.Some? ==>
            r.value.enqueue.value.kind == (if |data| == 20 then RawAccel else RawHeart))
    ensures r.Success? && r.value.logged <==> hnd !in {authHandle, heartHandle, SENSOR_HANDLE}
    ensures r.Success? && r.value.logged ==> r.value == IGNORE.(logged := true)
  {
    if hnd == authHandle then AuthReaction(data, cipher)
    else if hnd == heartHandle then Success(IGNORE.(enqueue := Some(Entry(Heart, data))))
    else if hnd == SENSOR_HANDLE then
      if |data| == 20 && Int8(data[0]) == 1 then Success(IGNORE.(enqueue := Some(Entry(RawAccel, data))))
      else if |data| == 16 then Success(IGNORE.(enqueue := Some(Entry(RawHeart, data))))
      else Success(IGNORE)
    else Success(IGNORE.(logged := true))
  }
}
