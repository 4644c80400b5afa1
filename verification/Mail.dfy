// The mailboxes of kernel/syscall/syscalls.c: a ring of bytes that holds the pending messages back to back,
// each an 8-byte header and its body, wrapping wherever the end of the ring falls.
module Mail {
  import opened Basics

  const PACK: nat := 8  // sizeof(msgpack_struct)
  const NULL_TASK: int := 0
  const ANY_TASK: int := -1
  const DUMMY_TASK: int := -2

  function Word(x: int): (w: nat)
    ensures w < 0x1_0000
  {
    x % 0x1_0000
  }

  // msgpack_struct
  datatype Pack = Pack(reserved: nat, messageNo: nat, msgId: nat, length: nat, source: nat)

  predicate Packable(p: Pack) {
    p.reserved < 256 && p.messageNo < 256 && p.msgId < 0x1_0000 && p.length < 0x1_0000 && p.source < 0x1_0000
  }

  // What a receive from an empty mailbox gives: -1 in the source and number fields.
  const NOTHING := Pack(0, 255, 0, 0, 0xFFFF)

  function Low(w: nat): Byte { w % 256 }

  function High(w: nat): Byte { w / 256 % 256 }

  function Wide(low: nat, high: nat): nat { low + 256 * high }

  // The header as it lies in memory, 16-bit fields low byte first.
  function Encode(p: Pack): (s: seq<Byte>)
    ensures |s| == PACK
  {
    [Low(p.reserved), Low(p.messageNo), Low(p.msgId), High(p.msgId), Low(p.length), High(p.length), Low(p.source),
      High(p.source)]
  }

  function Decode(s: seq<Byte>): (p: Pack)
    requires |s| >= PACK
    ensures Packable(p)
  {
    Pack(s[0], s[1], Wide(s[2], s[3]), Wide(s[4], s[5]), Wide(s[6], s[7]))
  }

  lemma WordRoundTrip(w: nat)
    requires w < 0x1_0000
    ensures Wide(Low(w), High(w)) == w
  {
  }

  lemma HeaderRoundTrip(p: Pack)
    requires Packable(p)
    ensures Decode(Encode(p)) == p
  {
    WordRoundTrip(p.msgId);
    WordRoundTrip(p.length);
    WordRoundTrip(p.source);
    hide Wide, High;
    assert Low(p.reserved) == p.reserved && Low(p.messageNo) == p.messageNo;
  }

  datatype Message = Message(pack: Pack, body: seq<Byte>)

  predicate Proper(m: Message) { Packable(m.pack) && m.pack.length == |m.body| }

  function Bytes(m: Message): (s: seq<Byte>)
    ensures |s| == PACK + |m.body|
  {
    Encode(m.pack) + m.body
  }

  function Encoded(queue: seq<Message>): seq<Byte> {
    if queue == [] then [] else Bytes(queue[0]) + Encoded(queue[1..])
  }

  lemma {:induction false} EncodedMore(queue: seq<Message>, m: Message)
    ensures Encoded(queue + [m]) == Encoded(queue) + Bytes(m)
  {
    if queue == [] {
      assert [m][1..] == [];
    } else {
      assert (queue + [m])[1..] == queue[1..] + [m];
      EncodedMore(queue[1..], m);
    }
  }

  lemma OldestFirst(queue: seq<Message>)
    requires queue != [] && Proper(queue[0])
    ensures var s := Encoded(queue);
            && |s| >= PACK + |queue[0].body| && Decode(s[..PACK]) == queue[0].pack
            && s[PACK..PACK + |queue[0].body|] == queue[0].body && s[PACK + |queue[0].body|..] == Encoded(queue[1..])
  {
    HeaderRoundTrip(queue[0].pack);
    assert Encoded(queue)[..PACK] == Encode(queue[0].pack);
  }

  // Reading the ring from its start gives back the messages: nothing in a body can be taken for a header.
  function Parse(s: seq<Byte>): seq<Message>
    decreases |s|
  {
    if |s| < PACK then []
    else
      var p := Decode(s[..PACK]);
      if |s| < PACK + p.length then []
      else [Message(p, s[PACK..PACK + p.length])] + Parse(s[PACK + p.length..])
  }

  lemma {:induction false} ParseEncoded(queue: seq<Message>)
    requires forall i | 0 <= i < |queue| :: Proper(queue[i])
    ensures Parse(Encoded(queue)) == queue
  {
    hide Parse, Encoded, Decode;
    if queue == [] {
      ParseNothing(queue);
    } else {
      OldestFirst(queue);
      ParseEncoded(queue[1..]);
      ParseOne(Encoded(queue), queue[0].pack);
      assert Message(queue[0].pack, queue[0].body) == queue[0];
      assert queue == [queue[0]] + queue[1..];
    }
  }

  lemma ParseOne(s: seq<Byte>, p: Pack)
    requires |s| >= PACK && p == Decode(s[..PACK]) && |s| >= PACK + p.length
    ensures Parse(s) == [Message(p, s[PACK..PACK + p.length])] + Parse(s[PACK + p.length..])
  {
    hide Decode;
  }

  lemma ParseNothing(queue: seq<Message>)
    requires queue == []
    ensures Parse(Encoded(queue)) == queue
  {
  }

  // n bytes of a ring, from "start" on.
  function Ring(bytes: seq<Byte>, start: nat, n: nat): (s: seq<Byte>)
    requires n <= |bytes| && start <= |bytes|
    ensures |s| == n && forall i | 0 <= i < n ::
            s[i] == bytes[if start + i >= |bytes| then start + i - |bytes| else start + i]
  {
    seq(n, i requires 0 <= i < n => bytes[if start + i >= |bytes| then start + i - |bytes| else start + i])
  }

  lemma Shifted(s: seq<Byte>, was: seq<Byte>, b: Byte, rest: seq<Byte>)
    requires [b] + rest == was
    ensures (s + [b]) + rest == s + was
  {
  }

  lemma HeadSplit(a: seq<Byte>, b: seq<Byte>, x: seq<Byte>, y: seq<Byte>)
    requires |a| == |b| && a + x == b + y
    ensures a == b && x == y
  {
    assert a == (a + x)[..|a|] && b == (b + y)[..|b|];
    assert x == (a + x)[|a|..] && y == (b + y)[|b|..];
  }

  lemma Grouped(a: seq<Byte>, b: seq<Byte>, c: seq<Byte>)
    ensures a + b + c == a + (b + c)
  {
  }

  lemma NothingBefore(s: seq<Byte>)
    ensures [] + s == s
  {
  }

  class Mailbox {
    var mail: array<Byte>
    var write: nat  // write_ptr - mail
    var read: nat   // read_ptr - mail
    var used: nat
    var allow: int
    ghost var queue: seq<Message>
    ghost var accepted: seq<Message>  // everything put into this buffer so far
    ghost var received: seq<Message>  // everything taken out of it

    // The pointer i bytes behind the read pointer, for i up to the mail size.
    function Place(i: nat): nat
      reads this`read, this`mail
    {
      if read + i >= mail.Length then read + i - mail.Length else read + i
    }

    ghost predicate Pointers()
      reads this`read, this`mail
    {
      read < mail.Length || (mail.Length == 0 && read == 0)
    }

    // The first n bytes from the read pointer on.
    ghost function Window(n: nat): (s: seq<Byte>)
      requires Pointers() && n <= mail.Length
      reads this`read, this`mail, mail
      ensures |s| == n && forall i | 0 <= i < n :: s[i] == mail[Place(i)]
    {
      Ring(mail[..], read, n)
    }

    ghost predicate Valid()
      reads this, mail
    {
      && Pointers() && used <= mail.Length && write == Place(used)
      && Window(used) == Encoded(queue) && (forall i | 0 <= i < |queue| :: Proper(queue[i]))
      && accepted == received + queue
    }

    // __init_ipc_info: no mailbox yet.
    constructor ()
      ensures Valid() && queue == [] && mail.Length == 0 && allow == NULL_TASK && fresh(mail)
    {
      mail := new Byte[0];
      write, read, used, allow := 0, 0, 0, NULL_TASK;
      queue, accepted, received := [], [], [];
    }

    // __set_mailbuffer
    method SetMailbuffer(buffer: array<Byte>)
      modifies this
      ensures Valid() && mail == buffer && queue == [] && allow == old(allow)
    {
      mail := buffer;
      read, write, used := 0, 0, 0;
      queue, accepted, received := [], [], [];
    }

    // increase_ptr
    function Increase(ptr: nat): nat
      reads this
    {
      if mail.Length <= ptr + 1 then 0 else ptr + 1
    }

    // One byte behind the n that are there.
    method PutByte(b: Byte, ghost n: nat)
      requires Pointers() && n < mail.Length && write == Place(n)
      modifies this`write, mail
      ensures Pointers() && write == Place(n + 1) && Window(n + 1) == old(Window(n)) + [b]
    {
      mail[write] := b;
      write := Increase(write);
    }

    method GetByte(ghost n: nat) returns (b: Byte)
      requires Pointers() && 0 < n <= mail.Length
      modifies this`read
      ensures Pointers() && [b] + Window(n - 1) == old(Window(n)) && old(Place(n)) == Place(n - 1)
    {
      b := mail[read];
      read := Increase(read);
    }

    // The byte loop of write_to_buffer.
    method PutBytes(src: seq<Byte>, ghost n: nat)
      requires Pointers() && write == Place(n) && n + |src| <= mail.Length
      modifies this`write, mail
      ensures Pointers() && write == Place(n + |src|) && Window(n + |src|) == old(Window(n)) + src
    {
      hide Window, Place;
      var i := 0;
      while i < |src|
        invariant 0 <= i <= |src| && Pointers() && write == Place(n + i) && Window(n + i) == old(Window(n)) + src[..i]
      {
        PutByte(src[i], n + i);
        assert src[..i + 1] == src[..i] + [src[i]];
        i := i + 1;
      }
      assert src[..i] == src;
    }

    // write_to_buffer: the header, then the body.
    method WriteToBuffer(pack: Pack, src: seq<Byte>, ghost n: nat)
      requires Pointers() && write == Place(n) && n + PACK + |src| <= mail.Length
      modifies this`write, mail
      ensures Pointers() && write == Place(n + PACK + |src|)
      ensures Window(n + PACK + |src|) == old(Window(n)) + Bytes(Message(pack, src))
    {
      hide Window, Place, Encode;
      PutBytes(Encode(pack), n);
      PutBytes(src, n + PACK);
    }

    method GetNext(head: seq<Byte>, ghost n: nat) returns (s: seq<Byte>)
      requires Pointers() && 0 < n <= mail.Length
      modifies this`read
      ensures Pointers() && |s| == |head| + 1 && s + Window(n - 1) == old(head + Window(n))
      ensures Place(n - 1) == old(Place(n))
    {
      hide Window, Place;
      ghost var was := Window(n);
      var b := GetByte(n);
      s := head + [b];
      Shifted(head, was, b, Window(n - 1));
    }

    // The byte loop of read_from_buffer that fills the header.
    method GetBytes(count: nat, ghost n: nat) returns (s: seq<Byte>)
      requires Pointers() && count <= n <= mail.Length
      modifies this`read
      ensures Pointers() && |s| == count && s + Window(n - count) == old(Window(n)) && Place(n - count) == old(Place(n))
    {
      hide Window, Place, Pointers;
      s := [];
      var i := 0;
      NothingBefore(Window(n));
      while i < count
        invariant 0 <= i <= count && |s| == i && Pointers() && s + Window(n - i) == old(Window(n))
        invariant Place(n - i) == old(Place(n))
      {
        s := GetNext(s, n - i);
        i := i + 1;
      }
    }

    method GetOne(dst: array<Byte>, i: nat, ghost n: nat)
      requires Pointers() && 0 < n <= mail.Length && i < dst.Length && dst != mail
      modifies this`read, dst
      ensures Pointers() && dst[..i + 1] + Window(n - 1) == old(dst[..i] + Window(n)) && Place(n - 1) == old(Place(n))
      ensures forall k | i < k < dst.Length :: dst[k] == old(dst[k])
    {
      hide Window, Place;
      ghost var head, was := dst[..i], Window(n);
      var b := GetByte(n);
      dst[i] := b;
      assert dst[..i + 1] == head + [b];
      Shifted(head, was, b, Window(n - 1));
    }

    // The byte loop of read_from_buffer that fills the receiver's buffer.
    method GetInto(dst: array<Byte>, count: nat, ghost n: nat)
      requires Pointers() && count <= n <= mail.Length && count <= dst.Length && dst != mail
      modifies this`read, dst
      ensures Pointers() && dst[..count] + Window(n - count) == old(Window(n)) && Place(n - count) == old(Place(n))
      ensures dst[count..] == old(dst[count..])
    {
      hide Window, Place, Pointers;
      var i := 0;
      assert dst[..0] == [];
      NothingBefore(Window(n));
      while i < count
        invariant 0 <= i <= count && Pointers() && Place(n - i) == old(Place(n))
        invariant dst[..i] + Window(n - i) == old(Window(n))
        invariant forall k | count <= k < dst.Length :: dst[k] == old(dst[k])
      {
        GetOne(dst, i, n - i);
        i := i + 1;
      }
    }

    // The header at the front of the ring.
    method GetHeader(ghost n: nat, ghost pack0: Pack, ghost tail: seq<Byte>) returns (pack: Pack)
      requires Pointers() && PACK <= n <= mail.Length && Packable(pack0) && Window(n) == Encode(pack0) + tail
      modifies this`read
      ensures Pointers() && pack == pack0 && Window(n - PACK) == tail && Place(n - PACK) == old(Place(n))
    {
      hide Window, Place, Pointers, Encode, Decode;
      var addr := GetBytes(PACK, n);
      HeadSplit(addr, Encode(pack0), Window(n - PACK), tail);
      HeaderRoundTrip(pack0);
      pack := Decode(addr);
    }

    // read_from_buffer: the header says how long the body is.
    method ReadFromBuffer(dst: array<Byte>, ghost n: nat, ghost pack0: Pack, ghost body: seq<Byte>,
                          ghost rest: seq<Byte>)
      returns (pack: Pack)
      requires Pointers() && dst != mail && |body| <= dst.Length && Proper(Message(pack0, body))
      requires n == PACK + |body| + |rest| <= mail.Length && Window(n) == Encode(pack0) + body + rest
      modifies this`read, dst
      ensures Pointers() && pack == pack0 && dst[..|body|] == body && dst[|body|..] == old(dst[|body|..])
      ensures Window(|rest|) == rest && Place(|rest|) == old(Place(n))
    {
      hide Window, Place, Pointers, Encode, Packable;
      Grouped(Encode(pack0), body, rest);
      pack := GetHeader(n, pack0, body + rest);
      GetInto(dst, pack.length, n - PACK);
      HeadSplit(dst[..pack.length], body, Window(n - PACK - pack.length), rest);
    }

    // The room test that both senders make.
    predicate HasRoom(size: nat)
      reads this
    {
      used + size + PACK <= mail.Length
    }

    // What an accepted message does to the mailbox.
    method Store(pack: Pack, src: seq<Byte>)
      requires Valid() && HasRoom(|src|) && Proper(Message(pack, src))
      modifies this`write, this`used, this`queue, this`accepted, mail
      ensures Valid() && queue == old(queue) + [Message(pack, src)] && received == old(received)
    {
      hide Window, Place, Encode, Encoded, Packable;
      used := used + PACK + |src|;
      WriteToBuffer(pack, src, used - PACK - |src|);
      EncodedMore(queue, Message(pack, src));
      queue, accepted := queue + [Message(pack, src)], accepted + [Message(pack, src)];
    }

    // __send_msg, up to the wake-up: accepted exactly when there is room and the sender is allowed.
    method SendMsg(reserved: Byte, messageNo: Byte, msgId: nat, src: seq<Byte>, sender: int) returns (ok: bool)
      requires Valid() && msgId < 0x1_0000 && |src| < 0x1_0000
      modifies this`write, this`used, this`queue, this`accepted, mail
      ensures Valid()
      ensures ok == (|Encoded(old(queue))| + PACK + |src| <= mail.Length && (allow == sender || allow == ANY_TASK))
      ensures queue == if ok then old(queue) + [Message(Pack(reserved, messageNo, msgId, |src|, Word(sender)), src)]
                                  else old(queue)
      ensures received == old(received)
    {
      if !HasRoom(|src|) || (allow != sender && allow != ANY_TASK) {
        return false;
      }
      Store(Pack(reserved, messageNo, msgId, |src|, Word(sender)), src);
      ok := true;
    }

    // dummy_send_msg, up to the wake-up: any receiver that has not named one task takes messages of the kernel.
    method DummySendMsg(reserved: Byte, messageNo: Byte, msgId: nat, src: seq<Byte>) returns (ok: bool)
      requires Valid() && msgId < 0x1_0000 && |src| < 0x1_0000
      modifies this`write, this`used, this`queue, this`accepted, mail
      ensures Valid()
      ensures ok == (|Encoded(old(queue))| + PACK + |src| <= mail.Length && (allow == DUMMY_TASK || allow < 0))
      ensures queue == if ok then old(queue) + [Message(Pack(reserved, messageNo, msgId, |src|, Word(DUMMY_TASK)), src)]
                                  else old(queue)
      ensures received == old(received)
    {
      if !HasRoom(|src|) || (allow != DUMMY_TASK && allow >= 0) {
        return false;
      }
      Store(Pack(reserved, messageNo, msgId, |src|, Word(DUMMY_TASK)), src);
      ok := true;
    }

    // __recv_msg: the oldest message, whole, or nothing. The size the source asserts is always there.
    method RecvMsg(dst: array<Byte>) returns (pack: Pack)
      requires Valid() && dst != mail && (queue != [] ==> |queue[0].body| <= dst.Length)
      modifies this`read, this`used, this`queue, this`received, dst
      ensures Valid() && accepted == old(accepted)
      ensures old(queue) == [] ==> pack == Pack(0, 255, 0, 0, 0xFFFF) && queue == [] && dst[..] == old(dst[..])
      ensures old(queue) != [] ==> pack == old(queue)[0].pack && queue == old(queue)[1..]
      ensures old(queue) != [] ==> received == old(received) + [old(queue)[0]]
      ensures old(queue) != [] ==> dst[..pack.length] == old(queue)[0].body
                                   && dst[pack.length..] == old(dst[pack.length..])
    {
      hide Window, Place, Encode, Decode, Packable;
      if used <= 0 {
        return NOTHING;
      }
      assert queue != [];
      assert Encoded(queue) == Encode(queue[0].pack) + queue[0].body + Encoded(queue[1..]);
      pack := ReadFromBuffer(dst, used, queue[0].pack, queue[0].body, Encoded(queue[1..]));
      assert used >= pack.length + PACK;
      used := used - (pack.length + PACK);
      received, queue := received + [queue[0]], queue[1..];
    }
  }
}
