/**
 The messages of the collaboration hub (internal/docs/collab.go): two unsigned varints, then a
 payload the hub never looks at.
 */
module HubWire {
  import opened Wrappers

  type byte = x: int | 0 <= x < 256

  type Message = seq<byte>

  /** The capacity of a connection's outbound queue. */
  const QUEUE_CAP: nat := 256

  const MESSAGE_SYNC := 0
  const MESSAGE_AWARENESS := 1
  const SYNC_STEP1 := 0
  const SYNC_STEP2 := 1
  const SYNC_UPDATE := 2

  /** binary.Uvarint: the value and the number of bytes read; n == 0 when the buffer ends too soon,
      n < 0 when the value does not fit in 64 bits. */
  datatype Varint = Varint(value: nat, n: int)

  function UvarintFrom(buf: Message, i: nat, x: nat, scale: nat): (v: Varint)
    requires i <= |buf|
    ensures v.n <= |buf|
    decreases |buf| - i
  {
    if i == |buf| then Varint(0, 0)
    else if i == 10 then Varint(0, -(i + 1))
    else if buf[i] < 0x80 then
      NatProduct(buf[i], scale);
      if i == 9 && buf[i] > 1 then Varint(0, -(i + 1)) else Varint(x + buf[i] * scale, i + 1)
    else
      NatProduct(buf[i] - 0x80, scale);
      UvarintFrom(buf, i + 1, x + (buf[i] - 0x80) * scale, scale * 0x80)
  }

  lemma NatProduct(a: nat, b: nat)
    ensures a * b >= 0
  {
  }

  function Uvarint(buf: Message): (v: Varint)
    ensures v.n <= |buf|
  {
    UvarintFrom(buf, 0, 0, 1)
  }

  /** A sync message whose sub-type is step 2 or update. */
  predicate CarriesData(msg: Message) {
    var mt := Uvarint(msg);
    && mt.n > 0 && mt.value == MESSAGE_SYNC
    && var st := Uvarint(msg[mt.n..]);
       st.n > 0 && (st.value == SYNC_STEP2 || st.value == SYNC_UPDATE)
  }

  const SYNC_DONE: Message := [0, 1, 2, 0, 0]

  /** What the hub itself sends back to the sender; None is nil. */
  function Reply(msg: Message): Option<Message> {
    var mt := Uvarint(msg);
    if mt.n <= 0 then None
    else if mt.value == MESSAGE_AWARENESS then Some(msg)
    else if mt.value == MESSAGE_SYNC then
      var st := Uvarint(msg[mt.n..]);
      if st.n > 0 && st.value == SYNC_STEP1 then Some(SYNC_DONE) else None
    else None
  }

  // ---- The encoder the clients use ---------------------------------------------------------------

  function PutUvarint(v: nat): Message {
    if v < 0x80 then [v] else [v % 0x80 + 0x80] + PutUvarint(v / 0x80)
  }

  function Power(n: nat): (p: nat)
    ensures p >= 1
  {
    if n == 0 then 1 else 0x80 * Power(n - 1)
  }

  /** Reading an encoded value from position i on. */
  lemma {:induction false} ReadBack(head: Message, v: nat, rest: Message, x: nat, scale: nat)
    requires |head| + |PutUvarint(v)| <= 9 || (|head| + |PutUvarint(v)| == 10 && LastDigit(v) <= 1)
    ensures UvarintFrom(head + PutUvarint(v) + rest, |head|, x, scale) ==
            Varint(x + v * scale, |head| + |PutUvarint(v)|)
    decreases v
  {
    var buf := head + PutUvarint(v) + rest;
    if v < 0x80 {
      assert buf[|head|] == v;
    } else {
      var digit: byte := v % 0x80 + 0x80;
      assert buf[|head|] == digit;
      assert buf == (head + [digit]) + PutUvarint(v / 0x80) + rest;
      ReadBack(head + [digit], v / 0x80, rest, x + (digit - 0x80) * scale, scale * 0x80);
      Recompose(v, x, scale);
    }
  }

  lemma Recompose(v: nat, x: nat, scale: nat)
    ensures x + (v % 0x80) * scale + (v / 0x80) * (scale * 0x80) == x + v * scale
  {
    var q, r := v / 0x80, v % 0x80;
    assert v == 0x80 * q + r;
    assert q * (scale * 0x80) == (0x80 * q) * scale;
    assert r * scale + (0x80 * q) * scale == (r + 0x80 * q) * scale;
  }

  /** The most significant digit. */
  function LastDigit(v: nat): nat { if v < 0x80 then v else LastDigit(v / 0x80) }

  lemma {:induction false} EncodedLength(v: nat, n: nat)
    requires n >= 1 && v < 2 * Power(n - 1)
    ensures |PutUvarint(v)| <= n - 1 || (|PutUvarint(v)| == n && LastDigit(v) <= 1)
    decreases n
  {
    if n == 1 {
    } else if v >= 0x80 {
      assert v / 0x80 < 2 * Power(n - 2) by {
        assert Power(n - 1) == 0x80 * Power(n - 2);
      }
      EncodedLength(v / 0x80, n - 1);
    }
  }

  lemma SixtyFourBits()
    ensures 2 * Power(9) == 0x1_0000_0000_0000_0000
  {
    assert Power(3) == 0x200000 by { assert Power(1) == 0x80; assert Power(2) == 0x4000; }
    assert Power(6) == 0x400_0000_0000 by { assert Power(4) == 0x80 * Power(3); assert Power(5) == 0x80 * Power(4); }
    assert Power(9) == 0x80 * (0x80 * (0x80 * Power(6)))
      by { assert Power(7) == 0x80 * Power(6); assert Power(8) == 0x80 * Power(7); }
  }

  /** Every 64-bit value reads back, whatever follows it. */
  lemma UvarintReadsBack(v: nat, rest: Message)
    requires v < 0x1_0000_0000_0000_0000
    ensures Uvarint(PutUvarint(v) + rest) == Varint(v, |PutUvarint(v)|) && |PutUvarint(v)| > 0
  {
    SixtyFourBits();
    EncodedLength(v, 10);
    ReadBack([], v, rest, 0, 1);
    assert [] + PutUvarint(v) + rest == PutUvarint(v) + rest;
  }

  /** What the hub does with a message framed by the encoder: it stores exactly sync step 2 and
      update, echoes awareness, and answers step 1. */
  lemma FramedMessage(mt: nat, st: nat, payload: Message)
    requires mt < 0x1_0000_0000_0000_0000 && st < 0x1_0000_0000_0000_0000
    ensures var msg := PutUvarint(mt) + (PutUvarint(st) + payload);
            && (CarriesData(msg) <==> mt == MESSAGE_SYNC && (st == SYNC_STEP2 || st == SYNC_UPDATE))
            && Reply(msg) == if mt == MESSAGE_AWARENESS then Some(msg)
                             else if mt == MESSAGE_SYNC && st == SYNC_STEP1 then Some(SYNC_DONE)
                             else None
  {
    hide Uvarint, PutUvarint;
    var inner := PutUvarint(st) + payload;
    UvarintReadsBack(mt, inner);
    UvarintReadsBack(st, payload);
    assert (PutUvarint(mt) + inner)[|PutUvarint(mt)|..] == inner;
  }

  /** No message is both stored and answered, over all byte strings. */
  lemma StoredIsNotAnswered(msg: Message)
    ensures CarriesData(msg) ==> Reply(msg).None?
  {
    hide Uvarint;
  }

  /** syncDone is what a client reads as a sync step 2 with an empty update. */
  lemma SyncDoneIsStep2()
    ensures SYNC_DONE == PutUvarint(MESSAGE_SYNC) + (PutUvarint(SYNC_STEP2) + [2, 0, 0])
    ensures CarriesData(SYNC_DONE)
  {
    FramedMessage(MESSAGE_SYNC, SYNC_STEP2, [2, 0, 0]);
  }
}
