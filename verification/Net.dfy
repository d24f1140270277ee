/** Address resolution and the queue of packets waiting for it. */
module Net {
  import opened Bytes
  import opened Checksum

  const TABLE_SIZE: nat := 16
  const QUEUE_SIZE: nat := 8
  const MAX_PAYLOAD: nat := 1400

  type Mac = s: seq<byte> | |s| == 6 witness [0, 0, 0, 0, 0, 0]

  datatype Entry = Entry(ip: u32, mac: Mac, timestamp: u32, valid: bool)

  datatype Packet = Packet(dst: u32, proto: byte, payload: seq<byte>)

  datatype Waiting = Waiting(packet: Packet, timestamp: u32, valid: bool)

  /** What reached the wire: an IP packet or an ARP message. */
  datatype Frame = Ip(dest: Mac, bytes: seq<byte>) | Arp(dest: Mac, bytes: seq<byte>)

  /** The 20-byte header with a zero checksum field. Addresses are stored as they come,
      in the order network code passes them around. */
  function Header(src: u32, p: Packet): (h: seq<byte>)
    requires |p.payload| <= MAX_PAYLOAD
    ensures |h| == 20 && Load16(h, 10) == 0
  {
    var len := 20 + |p.payload|;
    [0x45, 0, len / 0x100, len % 0x100, 0, 0, 0, 0, 64, p.proto, 0, 0] + Le32(src) + Le32(p.dst)
  }

  /** The bytes on the wire for a packet sent from `src`. */
  function Datagram(src: u32, p: Packet): seq<byte>
    requires |p.payload| <= MAX_PAYLOAD
  {
    Store16(Header(src, p), 10, ChecksumOf(Header(src, p))) + p.payload
  }

  /** Every header that is sent verifies (section 3.1 of RFC 791). */
  lemma DatagramVerifies(src: u32, p: Packet)
    requires |p.payload| <= MAX_PAYLOAD
    ensures ChecksumOf(Datagram(src, p)[..20]) == 0
  {
    ChecksumVerifies(Header(src, p), 10);
    assert Datagram(src, p)[..20] == Store16(Header(src, p), 10, ChecksumOf(Header(src, p)));
  }

  /** An IP datagram from `src` that carries packet `p`, field by field (section 3.1 of RFC 791). */
  ghost predicate IpBytes(b: seq<byte>, src: u32, p: Packet) {
    && |b| == 20 + |p.payload| && b[0] == 0x45 && b[1] == 0 && 0x100 * b[2] as int + b[3] == |b|
    && b[4..8] == [0, 0, 0, 0] && b[8] == 64 && b[9] == p.proto && ChecksumOf(b[..20]) == 0
    && Load32(b, 12) == src && Load32(b, 16) == p.dst && b[20..] == p.payload
  }

  /** One frame more in the log, with the datagram of `p`. */
  ghost predicate Carried(log0: seq<Frame>, log: seq<Frame>, src: u32, p: Packet) {
    |log| == |log0| + 1 && log0 <= log && log[|log0|].Ip? && IpBytes(log[|log0|].bytes, src, p)
  }

  lemma DatagramFields(src: u32, p: Packet)
    requires |p.payload| <= MAX_PAYLOAD
    ensures IpBytes(Datagram(src, p), src, p)
  {
    hide Le32, ChecksumOf, Store16;
    DatagramVerifies(src, p);
    var h := Header(src, p);
    var b, w := Datagram(src, p), Store16(h, 10, ChecksumOf(h));
    assert b[..20] == w && b[20..] == p.payload;
    assert forall i :: 0 <= i < 20 && i != 10 && i != 11 ==> b[i] == w[i] == h[i];
    LoadInside(h[..12], Le32(src), Le32(p.dst));
    LoadInside(h[..16], Le32(p.dst), []);
    assert h == h[..12] + Le32(src) + Le32(p.dst) == h[..16] + Le32(p.dst) + [];
  }

  method BuildDatagram(src: u32, p: Packet) returns (buf: seq<byte>)
    requires |p.payload| <= MAX_PAYLOAD
    ensures buf == Datagram(src, p)
  {
    var h := Header(src, p);
    var c := Checksum.Checksum(h);
    buf := Store16(h, 10, c) + p.payload;
  }

  /** The first valid entry for an address, or -1. */
  function FindIp(table: seq<Entry>, ip: u32, k: nat): (r: int)
    ensures r == -1 || (k <= r < |table| && table[r].valid && table[r].ip == ip)
    ensures forall i :: k <= i < |table| && (r == -1 || i < r) ==> !(table[i].valid && table[i].ip == ip)
    decreases |table| - k
  {
    if k >= |table| then -1
    else if table[k].valid && table[k].ip == ip then k
    else FindIp(table, ip, k + 1)
  }

  predicate Knows(table: seq<Entry>, ip: u32) { FindIp(table, ip, 0) >= 0 }

  /** At most one valid entry per address. */
  ghost predicate OnePerIp(table: seq<Entry>) {
    forall i, j :: 0 <= i < j < |table| && table[i].valid && table[j].valid ==> table[i].ip != table[j].ip
  }

  /** No waiting packet's destination is resolved, except possibly `except`. */
  ghost predicate Apart(table: seq<Entry>, queue: seq<Waiting>, except: set<u32>) {
    forall i, j :: 0 <= i < |table| && 0 <= j < |queue| && table[i].valid && queue[j].valid ==>
      queue[j].packet.dst in except || table[i].ip != queue[j].packet.dst
  }

  function CountWaiting(queue: seq<Waiting>): nat {
    if |queue| == 0 then 0 else (if queue[|queue| - 1].valid then 1 else 0) + CountWaiting(queue[..|queue| - 1])
  }

  lemma {:induction false} CountUpdate(queue: seq<Waiting>, i: nat, w: Waiting)
    requires i < |queue|
    ensures CountWaiting(queue[i := w]) + (if queue[i].valid then 1 else 0) ==
              CountWaiting(queue) + (if w.valid then 1 else 0)
  {
    var n := |queue| - 1;
    if i == n {
      assert queue[i := w][..n] == queue[..n];
    } else {
      assert queue[i := w][..n] == queue[..n][i := w];
      CountUpdate(queue[..n], i, w);
    }
  }

  /** The history of one run: every packet accepted so far, in order. A packet is named by
      its place there; `ticket` says which packet a queue slot holds, `sent` at which place
      of the log a packet went out, and `learned` which hardware addresses were learned. */
  datatype Books = Books(accepted: seq<Packet>, ticket: seq<int>, sent: map<int, int>, learned: set<(u32, Mac)>)

  /** A waiting packet is the accepted packet of its ticket, and was not sent. */
  ghost predicate Held(b: Books, queue: seq<Waiting>, i: int)
    requires |b.ticket| == |queue| && 0 <= i < |queue|
  {
    && 0 <= b.ticket[i] < |b.accepted| && b.ticket[i] !in b.sent
    && queue[i].packet == b.accepted[b.ticket[i]]
  }

  ghost predicate QueueBooked(b: Books, queue: seq<Waiting>) {
    && |b.ticket| == |queue|
    && (forall i :: 0 <= i < |queue| && queue[i].valid ==> Held(b, queue, i))
    && (forall i, j :: 0 <= i < j < |queue| && queue[i].valid && queue[j].valid ==> b.ticket[i] != b.ticket[j])
  }

  /** Packet `t` went out at place `sent[t]` of the log, with the bytes of its datagram, to a hardware
      address that was learned for its destination. */
  ghost predicate Delivered(b: Books, log: seq<Frame>, src: u32, t: int)
    requires t in b.sent
  {
    && 0 <= t < |b.accepted| && 0 <= b.sent[t] < |log| && |b.accepted[t].payload| <= MAX_PAYLOAD
    && log[b.sent[t]].Ip? && log[b.sent[t]].bytes == Datagram(src, b.accepted[t])
    && IpBytes(log[b.sent[t]].bytes, src, b.accepted[t])
    && (b.accepted[t].dst, log[b.sent[t]].dest) in b.learned
  }

  /** What the table holds was learned. */
  ghost predicate TableLearned(table: seq<Entry>, learned: set<(u32, Mac)>) {
    forall i :: 0 <= i < |table| && table[i].valid ==> (table[i].ip, table[i].mac) in learned
  }

  ghost predicate LogBooked(b: Books, log: seq<Frame>, src: u32) {
    && (forall t :: t in b.sent ==> Delivered(b, log, src, t))
    && (forall t, u :: t in b.sent && u in b.sent && t != u ==> b.sent[t] != b.sent[u])
    && (forall j :: 0 <= j < |log| && log[j].Ip? ==> SentAt(b, j))
  }

  ghost predicate SentAt(b: Books, j: int) { exists t :: t in b.sent && b.sent[t] == j }

  ghost predicate InQueue(b: Books, queue: seq<Waiting>, t: int) {
    exists i :: 0 <= i < |queue| && i < |b.ticket| && queue[i].valid && b.ticket[i] == t
  }

  /** No accepted packet is lost: it was sent, or it is waiting. */
  ghost predicate NoneLost(b: Books, queue: seq<Waiting>) {
    forall t :: 0 <= t < |b.accepted| ==> t in b.sent || InQueue(b, queue, t)
  }

  ghost predicate Booked(b: Books, queue: seq<Waiting>, log: seq<Frame>, src: u32) {
    QueueBooked(b, queue) && LogBooked(b, log, src) && NoneLost(b, queue)
  }

  /** A packet that goes out directly. */
  lemma SendDirect(b: Books, queue: seq<Waiting>, log: seq<Frame>, src: u32, p: Packet, mac: Mac)
    requires Booked(b, queue, log, src) && |p.payload| <= MAX_PAYLOAD && (p.dst, mac) in b.learned
    ensures Booked(Books(b.accepted + [p], b.ticket, b.sent[|b.accepted| := |log|], b.learned), queue,
                   log + [Ip(mac, Datagram(src, p))], src)
  {
    hide Datagram, IpBytes;
    DatagramFields(src, p);
    var b' := Books(b.accepted + [p], b.ticket, b.sent[|b.accepted| := |log|], b.learned);
    var log' := log + [Ip(mac, Datagram(src, p))];
    forall t | t in b.sent ensures Delivered(b', log', src, t) { assert Delivered(b, log, src, t); }
    forall i | 0 <= i < |queue| && queue[i].valid ensures Held(b', queue, i) { assert Held(b, queue, i); }
    forall j | 0 <= j < |log'| && log'[j].Ip? ensures SentAt(b', j) {
      if j < |log| {
        assert SentAt(b, j);
        var t :| t in b.sent && b.sent[t] == j;
        assert Delivered(b, log, src, t);
        assert t in b'.sent && b'.sent[t] == j;
      } else {
        assert |b.accepted| in b'.sent;
      }
    }
    forall t | 0 <= t < |b'.accepted| ensures t in b'.sent || InQueue(b', queue, t) {
      if t < |b.accepted| && t !in b.sent { assert InQueue(b, queue, t); }
    }
    forall t, u | t in b'.sent && u in b'.sent && t != u ensures b'.sent[t] != b'.sent[u] {
      if t in b.sent { assert Delivered(b, log, src, t); }
      if u in b.sent { assert Delivered(b, log, src, u); }
    }
  }

  /** A packet that has to wait. */
  lemma Enqueue(b: Books, queue: seq<Waiting>, log: seq<Frame>, src: u32, p: Packet, slot: nat, now: u32)
    requires Booked(b, queue, log, src) && slot < |queue| && !queue[slot].valid
    ensures Booked(Books(b.accepted + [p], b.ticket[slot := |b.accepted|], b.sent, b.learned),
                   queue[slot := Waiting(p, now, true)], log, src)
  {
    hide Datagram, IpBytes;
    var b' := Books(b.accepted + [p], b.ticket[slot := |b.accepted|], b.sent, b.learned);
    var queue' := queue[slot := Waiting(p, now, true)];
    forall t | t in b.sent ensures Delivered(b', log, src, t) { assert Delivered(b, log, src, t); }
    forall i | 0 <= i < |queue| && queue'[i].valid ensures Held(b', queue', i) {
      if i != slot { assert Held(b, queue, i); }
    }
    forall j | 0 <= j < |log| && log[j].Ip? ensures SentAt(b', j) { assert SentAt(b, j); }
    forall i, j | 0 <= i < j < |queue'| && queue'[i].valid && queue'[j].valid ensures b'.ticket[i] != b'.ticket[j] {
      if i != slot { assert Held(b, queue, i); }
      if j != slot { assert Held(b, queue, j); }
    }
    forall t | 0 <= t < |b'.accepted| ensures t in b'.sent || InQueue(b', queue', t) {
      if t == |b.accepted| {
        assert queue'[slot].valid && b'.ticket[slot] == t;
      } else if t !in b.sent {
        assert InQueue(b, queue, t);
        var i :| 0 <= i < |queue| && queue[i].valid && b.ticket[i] == t;
        assert queue'[i].valid && b'.ticket[i] == t;
      }
    }
  }

  /** A waiting packet goes out. */
  lemma Dequeue(b: Books, queue: seq<Waiting>, log: seq<Frame>, src: u32, i: nat, mac: Mac)
    requires Booked(b, queue, log, src) && i < |queue| && queue[i].valid && |queue[i].packet.payload| <= MAX_PAYLOAD
    requires (queue[i].packet.dst, mac) in b.learned
    ensures Booked(Books(b.accepted, b.ticket, b.sent[b.ticket[i] := |log|], b.learned),
                   queue[i := queue[i].(valid := false)], log + [Ip(mac, Datagram(src, queue[i].packet))], src)
  {
    hide Datagram, IpBytes;
    DatagramFields(src, queue[i].packet);
    var x := b.ticket[i];
    assert Held(b, queue, i);
    var b' := Books(b.accepted, b.ticket, b.sent[x := |log|], b.learned);
    var queue', log' := queue[i := queue[i].(valid := false)], log + [Ip(mac, Datagram(src, queue[i].packet))];
    forall t | t in b'.sent ensures Delivered(b', log', src, t) {
      if t != x { assert Delivered(b, log, src, t); }
    }
    forall k | 0 <= k < |queue| && queue'[k].valid ensures Held(b', queue', k) { assert Held(b, queue, k); }
    forall j | 0 <= j < |log'| && log'[j].Ip? ensures SentAt(b', j) {
      if j < |log| {
        assert SentAt(b, j);
        var t :| t in b.sent && b.sent[t] == j;
        assert t in b'.sent && b'.sent[t] == j;
      } else {
        assert x in b'.sent;
      }
    }
    forall t | 0 <= t < |b'.accepted| ensures t in b'.sent || InQueue(b', queue', t) {
      if t !in b'.sent {
        assert InQueue(b, queue, t);
        var k :| 0 <= k < |queue| && queue[k].valid && b.ticket[k] == t;
        assert queue'[k].valid && b'.ticket[k] == t;
      }
    }
    forall t, u | t in b'.sent && u in b'.sent && t != u ensures b'.sent[t] != b'.sent[u] {
      if t in b.sent { assert Delivered(b, log, src, t); }
      if u in b.sent { assert Delivered(b, log, src, u); }
    }
  }

  /** Learning an address takes nothing back. */
  lemma LearnMore(b: Books, queue: seq<Waiting>, log: seq<Frame>, src: u32, ip: u32, mac: Mac)
    requires Booked(b, queue, log, src)
    ensures Booked(b.(learned := b.learned + {(ip, mac)}), queue, log, src)
  {
    hide Datagram, IpBytes;
    var b' := b.(learned := b.learned + {(ip, mac)});
    forall t | t in b'.sent ensures Delivered(b', log, src, t) { assert Delivered(b, log, src, t); }
    forall i | 0 <= i < |queue| && queue[i].valid ensures Held(b', queue, i) { assert Held(b, queue, i); }
    forall j | 0 <= j < |log| && log[j].Ip? ensures SentAt(b', j) { assert SentAt(b, j); }
    forall t | 0 <= t < |b'.accepted| ensures t in b'.sent || InQueue(b', queue, t) {
      assert t in b.sent || InQueue(b, queue, t);
    }
  }

  /** An ARP message leaves the books alone. */
  lemma LogArp(b: Books, queue: seq<Waiting>, log: seq<Frame>, src: u32, f: Frame)
    requires Booked(b, queue, log, src) && f.Arp?
    ensures Booked(b, queue, log + [f], src)
  {
  }

  /** The globals of `arp.c` and `ip.c`, and (ghost) the wire and the books since the last
      initialisation. */
  class Stack {
    var arpIp: u32
    var ipIp: u32
    const ownMac: Mac
    var table: seq<Entry>
    var queue: seq<Waiting>
    var pending: int
    ghost var log: seq<Frame>
    ghost var books: Books

    /** Power-on state: everything zero. */
    constructor (mac: Mac)
      ensures Inv() && pending == 0 && log == [] && books.accepted == [] && |table| == 16 && |queue| == 8
    {
      arpIp, ipIp, ownMac := 0, 0, mac;
      table := seq(TABLE_SIZE, _ => Entry(0, [0, 0, 0, 0, 0, 0], 0, false));
      queue := EmptyQueue();
      pending := 0;
      log, books := [], EmptyBooks();
      new;
      EmptyCounts(EmptyQueue());
    }

    ghost predicate Core()
      reads this
    {
      && |table| == TABLE_SIZE && |queue| == QUEUE_SIZE
      && OnePerIp(table) && pending == CountWaiting(queue)
      && (forall i :: 0 <= i < |queue| && queue[i].valid ==> |queue[i].packet.payload| <= MAX_PAYLOAD)
      && Booked(books, queue, log, ipIp) && TableLearned(table, books.learned)
    }

    /** The invariant of every run between initialisations. */
    ghost predicate Inv()
      reads this
    {
      Core() && Apart(table, queue, {})
    }

    /** Reinitialisation clears the queue but not the counter, so the invariant survives
        exactly when nothing was waiting. */
    method Init(ip: u32)
      requires |table| == TABLE_SIZE && |queue| == QUEUE_SIZE
      modifies this
      ensures Inv() <==> old(pending) == 0
      ensures pending == old(pending) && CountWaiting(queue) == 0
      ensures ipIp == ip && arpIp == ip && log == [] && books.accepted == []
      ensures |table| == 16 && |queue| == 8 && forall a :: !Knows(table, a)
    {
      ipIp := ip;
      queue := EmptyQueue();
      arpIp := ip;
      table := seq(TABLE_SIZE, _ => Entry(0, [0, 0, 0, 0, 0, 0], 0, false));
      log, books := [], EmptyBooks();
      EmptyCounts(queue);
    }

    method Lookup(ip: u32) returns (found: bool, mac: Mac)
      requires |table| == TABLE_SIZE
      ensures found == Knows(table, ip)
      ensures found ==> mac == table[FindIp(table, ip, 0)].mac
    {
      for i := 0 to TABLE_SIZE
        invariant FindIp(table, ip, 0) == FindIp(table, ip, i)
      {
        if table[i].valid && table[i].ip == ip { return true, table[i].mac; }
      }
      return false, [0, 0, 0, 0, 0, 0];
    }

    /** Sends what waits for `ip`, now resolved. */
    method ProcessQueue(ip: u32)
      requires Core() && Apart(table, queue, {ip})
      modifies this`queue, this`pending, this`log, this`books
      ensures Core()
      ensures Knows(table, ip) ==> Inv()
      ensures books.accepted == old(books.accepted) && books.learned == old(books.learned)
      ensures Knows(table, ip) ==> Flushed(old(queue), queue, ip)
      ensures Knows(table, ip) ==>
                log == old(log) + Released(old(queue), QUEUE_SIZE, ip, table[FindIp(table, ip, 0)].mac, ipIp)
      ensures !Knows(table, ip) ==> queue == old(queue) && log == old(log)
    {
      hide Booked, Datagram, CountWaiting, FindIp, Released, OnePerIp;
      var found, mac := Lookup(ip);
      if !found { return; }
      ReleasedNext(queue, 0, ip, mac, ipIp);
      for i := 0 to QUEUE_SIZE
        invariant Core() && books.accepted == old(books.accepted) && books.learned == old(books.learned)
        invariant forall k :: i <= k < QUEUE_SIZE ==> queue[k] == old(queue)[k]
        invariant forall k :: 0 <= k < i ==> queue[k] == Settled(old(queue)[k], ip)
        invariant log == old(log) + Released(old(queue), i, ip, mac, ipIp)
      {
        ReleasedNext(old(queue), i, ip, mac, ipIp);
        if queue[i].valid && queue[i].packet.dst == ip {
          Release(i, mac);
        }
      }
    }

    /** Sends the packet in place `i` to a learned address. */
    method Release(i: nat, mac: Mac)
      requires Core() && i < QUEUE_SIZE && queue[i].valid && (queue[i].packet.dst, mac) in books.learned
      modifies this`queue, this`pending, this`log, this`books
      ensures Core() && queue == old(queue)[i := old(queue)[i].(valid := false)]
      ensures books.accepted == old(books.accepted) && books.learned == old(books.learned)
      ensures |old(queue)[i].packet.payload| <= MAX_PAYLOAD
      ensures log == old(log) + [Ip(mac, Datagram(ipIp, old(queue)[i].packet))]
      ensures Carried(old(log), log, ipIp, old(queue)[i].packet)
    {
      hide Booked, Datagram, CountWaiting, FindIp, IpBytes;
      DatagramFields(ipIp, queue[i].packet);
      var buf := BuildDatagram(ipIp, queue[i].packet);
      Dequeue(books, queue, log, ipIp, i, mac);
      CountUpdate(queue, i, queue[i].(valid := false));
      Tickets(books, queue, log, ipIp);
      log := log + [Ip(mac, buf)];
      books := Books(books.accepted, books.ticket, books.sent[books.ticket[i] := |log| - 1], books.learned);
      queue := queue[i := queue[i].(valid := false)];
      pending := pending - 1;
    }

    method Request(ip: u32)
      requires Core()
      modifies this`log
      ensures Core() && IsRequest(old(log), log, ownMac, arpIp, ip)
    {
      hide Booked;
      var f := Arp(BROADCAST, [0, 1, 8, 0, 6, 4, 0, 1] + ownMac + Le32(arpIp) + [0, 0, 0, 0, 0, 0] + Le32(ip));
      ArpFields(f.bytes, 1, ownMac, arpIp, [0, 0, 0, 0, 0, 0], ip);
      LogArp(books, queue, log, ipIp, f);
      log := log + [f];
    }

    /** 1: sent at once; 0: waiting for resolution; -1: queue full, packet dropped. */
    method Tx(dst: u32, proto: byte, payload: seq<byte>, now: u32) returns (r: int)
      requires Inv() && |payload| <= 1400
      modifies this`queue, this`pending, this`log, this`books
      ensures Inv()
      ensures r == if Knows(table, dst) then 1 else if CountWaiting(old(queue)) == 8 then -1 else 0
      ensures books.accepted == old(books.accepted) + (if r >= 0 then [Packet(dst, proto, payload)] else [])
      ensures books.learned == old(books.learned)
      ensures r == 1 ==> queue == old(queue)
      ensures r == 1 ==>
                log == old(log) + [Ip(table[FindIp(table, dst, 0)].mac, Datagram(ipIp, Packet(dst, proto, payload)))]
      ensures r == 1 ==> Carried(old(log), log, ipIp, Packet(dst, proto, payload))
      ensures r == 0 ==> pending == old(pending) + 1 && InQueue(books, queue, |old(books.accepted)|)
      ensures r == 0 ==> IsRequest(old(log), log, ownMac, arpIp, dst)
      ensures r == 0 ==> Queued(old(queue), queue, Packet(dst, proto, payload), now)
      ensures r == -1 ==> queue == old(queue) && log == old(log)
      ensures old(log) <= log
    {
      hide Booked, Datagram, FindIp, IsArp, IpBytes;
      var p := Packet(dst, proto, payload);
      DatagramFields(ipIp, p);
      var buf := BuildDatagram(ipIp, p);
      var found, mac := Lookup(dst);
      if found {
        SendDirect(books, queue, log, ipIp, p, mac);
        books := Books(books.accepted + [p], books.ticket, books.sent[|books.accepted| := |log|], books.learned);
        log := log + [Ip(mac, buf)];
        return 1;
      }
      var slot := FreeSlot();
      if slot < 0 { return -1; }
      Enqueue(books, queue, log, ipIp, p, slot, now);
      CountUpdate(queue, slot, Waiting(p, now, true));
      Tickets(books, queue, log, ipIp);
      NotKnown(table, dst);
      books := Books(books.accepted + [p], books.ticket[slot := |books.accepted|], books.sent, books.learned);
      queue := queue[slot := Waiting(p, now, true)];
      pending := pending + 1;
      assert queue[slot].valid && books.ticket[slot] == |old(books.accepted)|;
      Request(dst);
      r := 0;
    }

    /** Learns an address. Only a new entry flushes the queue: for an address that was
        already known, the invariant says that nothing can be waiting. */
    method AddEntry(ip: u32, mac: Mac, now: u32)
      requires Inv()
      modifies this`table, this`queue, this`pending, this`log, this`books
      ensures Inv()
      ensures Learned(old(table), table, ip, mac, now)
      ensures books.accepted == old(books.accepted) && books.learned == old(books.learned) + {(ip, mac)}
      ensures Flushed(old(queue), queue, ip)
      ensures log == old(log) + Released(old(queue), QUEUE_SIZE, ip, mac, ipIp)
    {
      hide Booked, Datagram, CountWaiting, FindIp, Released;
      LearnMore(books, queue, log, ipIp, ip, mac);
      books := books.(learned := books.learned + {(ip, mac)});
      ghost var b := books;
      var entry := Entry(ip, mac, now, true);
      for i := 0 to TABLE_SIZE
        invariant forall k :: 0 <= k < i ==> !(table[k].valid && table[k].ip == ip)
        invariant table == old(table) && queue == old(queue) && log == old(log) && books == b
        invariant pending == old(pending)
      {
        if table[i].valid && table[i].ip == ip {
          assert forall k :: 0 <= k < QUEUE_SIZE && queue[k].valid ==> queue[k].packet.dst != table[i].ip;
          table := table[i := table[i].(mac := mac, timestamp := now)];
          assert table == old(table)[i := entry] && Place(old(table), ip, i);
          NoneReleased(queue, QUEUE_SIZE, ip, mac, ipIp);
          return;
        }
      }
      NotKnown(table, ip);
      for i := 0 to TABLE_SIZE
        invariant forall k :: 0 <= k < i ==> table[k].valid
        invariant table == old(table) && queue == old(queue) && log == old(log) && books == b
        invariant pending == old(pending)
      {
        if !table[i].valid {
          assert Place(old(table), ip, i);
          Install(i, entry);
          return;
        }
      }
      var oldest := 0;
      for i := 1 to TABLE_SIZE
        invariant 0 <= oldest < i
        invariant forall k :: 0 <= k < i ==> table[oldest].timestamp <= table[k].timestamp
        invariant forall k :: 0 <= k < oldest ==> table[oldest].timestamp < table[k].timestamp
        invariant table == old(table) && queue == old(queue) && log == old(log) && books == b
        invariant pending == old(pending)
      {
        if table[i].timestamp < table[oldest].timestamp { oldest := i; }
      }
      assert Place(old(table), ip, oldest);
      Install(oldest, entry);
    }

    /** Stores a new entry and sends what was waiting for it. */
    method Install(i: nat, e: Entry)
      requires Inv() && i < TABLE_SIZE && e.valid && !Knows(table, e.ip) && (e.ip, e.mac) in books.learned
      modifies this`table, this`queue, this`pending, this`log, this`books
      ensures Inv() && table == old(table)[i := e]
      ensures books.accepted == old(books.accepted) && books.learned == old(books.learned)
      ensures Flushed(old(queue), queue, e.ip)
      ensures log == old(log) + Released(old(queue), QUEUE_SIZE, e.ip, e.mac, ipIp)
    {
      hide Booked, Datagram, CountWaiting, FindIp, Released;
      NotKnown(table, e.ip);
      table := table[i := e];
      NotKnown(table, e.ip);
      FoundIsOnly(table, e.ip, i);
      ProcessQueue(e.ip);
    }

    /** An ARP message of at least 28 bytes arrives. Requests for our address are answered;
        the sender of every request and reply is learned (RFC 826, "Packet Reception"). */
    method Rx(pkt: seq<byte>, now: u32)
      requires Inv() && |pkt| >= 28
      modifies this`table, this`queue, this`pending, this`log, this`books
      ensures Inv()
      ensures books.accepted == old(books.accepted)
      ensures Oper(pkt) != 1 && Oper(pkt) != 2 ==>
                table == old(table) && queue == old(queue) && log == old(log) && books.learned == old(books.learned)
      ensures Oper(pkt) == 1 || Oper(pkt) == 2 ==>
                && Learned(old(table), table, Load32(pkt, 14), pkt[8..14], now)
                && books.learned == old(books.learned) + {(Load32(pkt, 14), pkt[8..14])}
                && Flushed(old(queue), queue, Load32(pkt, 14))
                && Answered(old(log), log, pkt, ownMac, arpIp,
                            Released(old(queue), QUEUE_SIZE, Load32(pkt, 14), pkt[8..14], ipIp))
    {
      hide Booked, Datagram, CountWaiting, FindIp, Load32, Learned, Le32, Released;
      var oper := pkt[6] as int * 0x100 + pkt[7];
      if oper == 1 {
        if Load32(pkt, 24) == arpIp {
          var asker, target := pkt[8..14], Le32(Load32(pkt, 14));
          var reply := Arp(asker, [0, 1, 8, 0, 6, 4, 0, 2] + ownMac + Le32(arpIp) + asker + target);
          ArpFields(reply.bytes, 2, ownMac, arpIp, pkt[8..14], Load32(pkt, 14));
          LogArp(books, queue, log, ipIp, reply);
          log := log + [reply];
        }
        AddEntry(Load32(pkt, 14), pkt[8..14], now);
      } else if oper == 2 {
        AddEntry(Load32(pkt, 14), pkt[8..14], now);
      }
    }

    ghost function Now(): Moment
      reads this
    {
      Moment(table, queue, log, books.accepted, books.learned)
    }

    /** One event; a send is answered with the code of `Tx`, anything else with 0. */
    method Handle(e: Event) returns (code: int)
      requires Inv() && e.WellSized()
      modifies this`table, this`queue, this`pending, this`log, this`books
      ensures Inv() && Happens(old(Now()), e, code, Now(), ownMac, arpIp, ipIp)
      ensures books.accepted == old(books.accepted) + Accepted([e], [code])
    {
      hide Booked, Learned, Datagram, CountWaiting, FindIp, Load32, IsArp, Released, Carries, IpBytes;
      code := 0;
      match e {
        case Send(dst, proto, payload, now) =>
          code := Tx(dst, proto, payload, now);
        case Receive(pkt, now) =>
          Rx(pkt, now);
        case Learn(ip, mac, now) =>
          AddEntry(ip, mac, now);
      }
      LogCarries(books, queue, old(log), log, ipIp);
    }

    /** The first unused queue slot, or -1. */
    method FreeSlot() returns (slot: int)
      requires |queue| == QUEUE_SIZE
      ensures slot == -1 <==> CountWaiting(queue) == QUEUE_SIZE
      ensures slot != -1 ==> 0 <= slot < QUEUE_SIZE && !queue[slot].valid
    {
      slot := -1;
      for i := 0 to QUEUE_SIZE
        invariant forall k :: 0 <= k < i ==> queue[k].valid
      {
        if !queue[i].valid {
          CountBelow(queue, i);
          return i;
        }
      }
      CountAll(queue);
    }
  }

  /** An echo request with a zero checksum field: type 8, code 0, identifier 1. */
  function EchoHeader(n: u16): (h: seq<byte>)
    ensures |h| == 8 && Load16(h, 2) == 0
  {
    [8, 0, 0, 0, 1, 0] + Le16(n)
  }

  function EchoRequest(n: u16): seq<byte> { Store16(EchoHeader(n), 2, ChecksumOf(EchoHeader(n))) }

  /** Echo request number `n`, field by field (RFC 792, "Echo or Echo Reply Message"); identifier and number
      are stored low byte first. */
  ghost predicate EchoBytes(b: seq<byte>, n: u16) {
    |b| == 8 && b[0] == 8 && b[1] == 0 && b[4..6] == [1, 0] && Load16(b, 6) == n && ChecksumOf(b) == 0
  }

  /** Every echo request has its number and verifies. */
  lemma EchoVerifies(n: u16)
    ensures EchoBytes(EchoRequest(n), n)
  {
    hide ChecksumOf, Store16;
    ChecksumVerifies(EchoHeader(n), 2);
    var h, b := EchoHeader(n), EchoRequest(n);
    assert forall i :: 0 <= i < 8 && i != 2 && i != 3 ==> b[i] == h[i];
  }

  class Echo {
    var number: u16
    var waiting: bool

    /** Sends the next echo request; its number wraps at 16 bits. */
    method Ping(s: Stack, ip: u32, now: u32) returns (r: int)
      requires s.Inv()
      modifies this, s`queue, s`pending, s`log, s`books
      ensures s.Inv() && waiting && number == (old(number) as int + 1) % 0x1_0000
      ensures r == if Knows(s.table, ip) then 1 else if CountWaiting(old(s.queue)) == 8 then -1 else 0
      ensures s.books.accepted == old(s.books.accepted) + (if r >= 0 then [Packet(ip, 1, EchoRequest(number))] else [])
      ensures EchoBytes(EchoRequest(number), number)
      ensures r == 1 ==> Carried(old(s.log), s.log, s.ipIp, Packet(ip, 1, EchoRequest(number)))
    {
      hide Booked, FindIp, CountWaiting, Carried, EchoBytes;
      number := (number as int + 1) % 0x1_0000;
      EchoVerifies(number);
      var h := EchoHeader(number);
      var c := Checksum.Checksum(h);
      waiting := true;
      r := s.Tx(ip, 1, Store16(h, 2, c), now);
    }
  }

  datatype Event =
    | Send(dst: u32, proto: byte, payload: seq<byte>, now: u32)
    | Receive(pkt: seq<byte>, now: u32)
    | Learn(ip: u32, mac: Mac, now: u32)
  {
    predicate WellSized() {
      match this
      case Send(_, _, payload, _) => |payload| <= 1400
      case Receive(pkt, _) => |pkt| >= 28
      case Learn(_, _, _) => true
    }
  }

  /** What a run is about at one moment. */
  datatype Moment = Moment(table: seq<Entry>, queue: seq<Waiting>, log: seq<Frame>, accepted: seq<Packet>,
                           learned: set<(u32, Mac)>)

  /** Frames are only added to the log, and those for IP carry accepted packets. */
  ghost predicate Carries(log0: seq<Frame>, log: seq<Frame>, accepted: seq<Packet>, src: u32) {
    && log0 <= log
    && forall j :: |log0| <= j < |log| && log[j].Ip? ==>
         exists t :: 0 <= t < |accepted| && IpBytes(log[j].bytes, src, accepted[t])
  }

  lemma LogCarries(b: Books, queue: seq<Waiting>, log0: seq<Frame>, log: seq<Frame>, src: u32)
    requires Booked(b, queue, log, src) && log0 <= log
    ensures Carries(log0, log, b.accepted, src)
  {
    hide IpBytes, Datagram;
    forall j | |log0| <= j < |log| && log[j].Ip?
      ensures exists t :: 0 <= t < |b.accepted| && IpBytes(log[j].bytes, src, b.accepted[t])
    {
      assert SentAt(b, j);
      var t :| t in b.sent && b.sent[t] == j;
      assert Delivered(b, log, src, t);
    }
  }

  /** Event `e`, answered with `code`, leads from `m` to `m'` on a machine with the given addresses. */
  ghost predicate Happens(m: Moment, e: Event, code: int, m': Moment, mac: Mac, self: u32, src: u32) {
    && Carries(m.log, m'.log, m'.accepted, src)
    && match e
    case Send(dst, proto, payload, now) =>
      var p := Packet(dst, proto, payload);
      && |payload| <= 1400 && m'.table == m.table && m'.learned == m.learned
      && code == (if Knows(m.table, dst) then 1 else if CountWaiting(m.queue) == 8 then -1 else 0)
      && m'.accepted == m.accepted + (if code >= 0 then [p] else [])
      && (code == 1 ==> m'.queue == m.queue)
      && (code == 1 ==> m'.log == m.log + [Ip(m.table[FindIp(m.table, dst, 0)].mac, Datagram(src, p))])
      && (code == 1 ==> Carried(m.log, m'.log, src, p))
      && (code == 0 ==> Queued(m.queue, m'.queue, p, now) && IsRequest(m.log, m'.log, mac, self, dst))
      && (code == -1 ==> m'.queue == m.queue && m'.log == m.log)
    case Receive(pkt, now) =>
      && |pkt| >= 28 && m'.accepted == m.accepted && code == 0
      && var ip, from := Load32(pkt, 14), pkt[8..14];
         if Oper(pkt) == 1 || Oper(pkt) == 2 then
           && Learned(m.table, m'.table, ip, from, now) && m'.learned == m.learned + {(ip, from)}
           && Flushed(m.queue, m'.queue, ip)
           && Answered(m.log, m'.log, pkt, mac, self, Released(m.queue, QUEUE_SIZE, ip, from, src))
         else m' == m
    case Learn(ip, from, now) =>
      && m'.accepted == m.accepted && code == 0
      && Learned(m.table, m'.table, ip, from, now) && m'.learned == m.learned + {(ip, from)}
      && Flushed(m.queue, m'.queue, ip) && m'.log == m.log + Released(m.queue, QUEUE_SIZE, ip, from, src)
  }

  /** The packets of the events that were answered with at least 0, in order. */
  function Accepted(events: seq<Event>, codes: seq<int>): seq<Packet>
    requires |codes| == |events|
  {
    if |events| == 0 then []
    else
      var n := |events| - 1;
      var e := events[n];
      Accepted(events[..n], codes[..n]) + if e.Send? && codes[n] >= 0 then [Packet(e.dst, e.proto, e.payload)] else []
  }

  /** Any run of sends, ARP messages and learned addresses: each event has its effect on the moment it
      meets, exactly the packets of this run's answered sends are accepted, and each packet accepted so
      far is either still waiting or was sent, never both. */
  method Run(s: Stack, events: seq<Event>) returns (codes: seq<int>, ghost moments: seq<Moment>)
    requires s.Inv() && forall i :: 0 <= i < |events| ==> events[i].WellSized()
    modifies s`table, s`queue, s`pending, s`log, s`books
    ensures s.Inv()
    ensures |codes| == |events| && |moments| == |events| + 1
    ensures moments[0] == old(s.Now()) && moments[|events|] == s.Now()
    ensures forall i :: 0 <= i < |events| ==>
              Happens(moments[i], events[i], codes[i], moments[i + 1], s.ownMac, s.arpIp, s.ipIp)
    ensures s.books.accepted == old(s.books.accepted) + Accepted(events, codes)
    ensures forall t :: 0 <= t < |s.books.accepted| ==> (t in s.books.sent) != InQueue(s.books, s.queue, t)
  {
    hide Stack.Inv, Happens, Accepted, InQueue, Event.WellSized;
    codes, moments := [], [s.Now()];
    NoneAccepted();
    for i := 0 to |events|
      invariant s.Inv() && |codes| == i && |moments| == i + 1 && moments[0] == old(s.Now()) && moments[i] == s.Now()
      invariant forall j :: 0 <= j < i ==>
                  Happens(moments[j], events[j], codes[j], moments[j + 1], s.ownMac, s.arpIp, s.ipIp)
      invariant s.books.accepted == old(s.books.accepted) + Accepted(events[..i], codes)
    {
      assert events[..i + 1] == events[..i] + [events[i]];
      var code := s.Handle(events[i]);
      AcceptedMore(events[..i], codes, events[i], code);
      codes, moments := codes + [code], moments + [s.Now()];
    }
    assert events[..|events|] == events;
    AllOnce(s);
  }

  lemma NoneAccepted()
    ensures Accepted([], []) == []
  {
  }

  lemma AcceptedMore(events: seq<Event>, codes: seq<int>, e: Event, code: int)
    requires |codes| == |events|
    ensures Accepted(events + [e], codes + [code]) == Accepted(events, codes) + Accepted([e], [code])
  {
    assert (events + [e])[..|events|] == events && (codes + [code])[..|codes|] == codes;
    assert [e][..0] == [] && [code][..0] == [];
  }

  lemma AllOnce(s: Stack)
    requires s.Inv()
    ensures forall t :: 0 <= t < |s.books.accepted| ==> (t in s.books.sent) != InQueue(s.books, s.queue, t)
  {
    hide Booked, Learned, Apart, OnePerIp, InQueue;
    forall t | 0 <= t < |s.books.accepted| ensures (t in s.books.sent) != InQueue(s.books, s.queue, t) {
      ExactlyOnce(s.books, s.queue, s.log, s.ipIp, t);
    }
  }

  /** Each accepted packet is waiting or was sent, never both; a sent one stands in the log
      at a place of its own, as the datagram the direct path would have sent. */
  lemma ExactlyOnce(b: Books, queue: seq<Waiting>, log: seq<Frame>, src: u32, t: int)
    requires Booked(b, queue, log, src) && 0 <= t < |b.accepted|
    ensures (t in b.sent) != InQueue(b, queue, t)
    ensures t in b.sent ==> Delivered(b, log, src, t) && forall u :: u in b.sent && b.sent[u] == b.sent[t] ==> u == t
  {
  }

  function EmptyQueue(): seq<Waiting> { seq(QUEUE_SIZE, _ => Waiting(Packet(0, 0, []), 0, false)) }

  function EmptyBooks(): Books { Books([], seq(QUEUE_SIZE, _ => 0), map[], {}) }

  lemma {:induction false} EmptyCounts(queue: seq<Waiting>)
    requires forall i :: 0 <= i < |queue| ==> !queue[i].valid
    ensures CountWaiting(queue) == 0
  {
    if |queue| > 0 { EmptyCounts(queue[..|queue| - 1]); }
  }

  lemma {:induction false} CountAll(queue: seq<Waiting>)
    requires forall i :: 0 <= i < |queue| ==> queue[i].valid
    ensures CountWaiting(queue) == |queue|
  {
    if |queue| > 0 { CountAll(queue[..|queue| - 1]); }
  }

  lemma {:induction false} CountBelow(queue: seq<Waiting>, i: nat)
    requires i < |queue| && !queue[i].valid
    ensures CountWaiting(queue) < |queue|
  {
    var n := |queue| - 1;
    if i < n { CountBelow(queue[..n], i); } else { CountMost(queue[..n]); }
  }

  lemma {:induction false} CountMost(queue: seq<Waiting>)
    ensures CountWaiting(queue) <= |queue|
  {
    if |queue| > 0 { CountMost(queue[..|queue| - 1]); }
  }

  lemma Tickets(b: Books, queue: seq<Waiting>, log: seq<Frame>, src: u32)
    requires Booked(b, queue, log, src)
    ensures |b.ticket| == |queue|
  {
  }

  lemma NotKnown(table: seq<Entry>, ip: u32)
    ensures !Knows(table, ip) <==> forall i :: 0 <= i < |table| ==> !(table[i].valid && table[i].ip == ip)
  {
  }

  function Oper(pkt: seq<byte>): int
    requires |pkt| >= 28
  {
    0x100 * pkt[6] as int + pkt[7]
  }

  const BROADCAST: Mac := [255, 255, 255, 255, 255, 255]

  /** The 28 bytes of an ARP message for IPv4 over Ethernet, field by field (RFC 826, "Packet format"). */
  ghost predicate ArpBytes(b: seq<byte>, oper: int, sha: Mac, spa: u32, tha: Mac, tpa: u32) {
    && |b| == 28 && b[0..6] == [0, 1, 8, 0, 6, 4] && Oper(b) == oper
    && b[8..14] == sha && Load32(b, 14) == spa && b[18..24] == tha && Load32(b, 24) == tpa
  }

  ghost predicate IsArp(f: Frame, dest: Mac, oper: int, sha: Mac, spa: u32, tha: Mac, tpa: u32) {
    f.Arp? && f.dest == dest && ArpBytes(f.bytes, oper, sha, spa, tha, tpa)
  }

  lemma ArpFields(b: seq<byte>, oper: byte, sha: Mac, spa: u32, tha: Mac, tpa: u32)
    requires b == [0, 1, 8, 0, 6, 4, 0, oper] + sha + Le32(spa) + tha + Le32(tpa)
    ensures ArpBytes(b, oper, sha, spa, tha, tpa)
  {
    hide Le32;
    LoadInside([0, 1, 8, 0, 6, 4, 0, oper] + sha, Le32(spa), tha + Le32(tpa));
    LoadInside([0, 1, 8, 0, 6, 4, 0, oper] + sha + Le32(spa) + tha, Le32(tpa), []);
    assert b == [0, 1, 8, 0, 6, 4, 0, oper] + sha + Le32(spa) + (tha + Le32(tpa));
    assert b == [0, 1, 8, 0, 6, 4, 0, oper] + sha + Le32(spa) + tha + Le32(tpa) + [];
  }

  lemma LoadInside(a: seq<byte>, w: seq<byte>, z: seq<byte>)
    requires |w| == 4
    ensures Load32(a + w + z, |a|) == Load32(w, 0)
  {
    var s := a + w + z;
    assert s[|a|] == w[0] && s[|a| + 1] == w[1] && s[|a| + 2] == w[2] && s[|a| + 3] == w[3];
  }

  /** What receiving an ARP message sends: the answer to a question for our address, then the packets that
      waited for the sender, and nothing else. */
  ghost predicate Answered(log0: seq<Frame>, log: seq<Frame>, pkt: seq<byte>, mac: Mac, self: u32, released: seq<Frame>)
    requires |pkt| >= 28
  {
    if Oper(pkt) == 1 && Load32(pkt, 24) == self then
      && |log| > |log0| && log == log0 + [log[|log0|]] + released
      && IsArp(log[|log0|], pkt[8..14], 2, mac, self, pkt[8..14], Load32(pkt, 14))
    else
      log == log0 + released
  }

  /** The frames that go out to `mac` for what waits for `ip` in the first `n` places of the queue, in order. */
  ghost function Released(queue: seq<Waiting>, n: nat, ip: u32, mac: Mac, src: u32): seq<Frame> {
    if n == 0 || n > |queue| then []
    else Released(queue, n - 1, ip, mac, src) + Leaving(queue[n - 1], ip, mac, src)
  }

  ghost function Leaving(w: Waiting, ip: u32, mac: Mac, src: u32): seq<Frame> {
    var p := w.packet;
    if w.valid && p.dst == ip && |p.payload| <= MAX_PAYLOAD then [Ip(mac, Datagram(src, p))] else []
  }

  lemma ReleasedNext(queue: seq<Waiting>, n: nat, ip: u32, mac: Mac, src: u32)
    requires n < |queue|
    ensures Released(queue, n + 1, ip, mac, src) == Released(queue, n, ip, mac, src) + Leaving(queue[n], ip, mac, src)
    ensures Released(queue, 0, ip, mac, src) == []
  {
  }

  lemma {:induction false} NoneReleased(queue: seq<Waiting>, n: nat, ip: u32, mac: Mac, src: u32)
    requires forall i :: 0 <= i < |queue| && queue[i].valid ==> queue[i].packet.dst != ip
    ensures Released(queue, n, ip, mac, src) == []
  {
    if 0 < n <= |queue| { NoneReleased(queue, n - 1, ip, mac, src); }
  }

  /** One frame more in the log: a broadcast question for `ip`. */
  ghost predicate IsRequest(log0: seq<Frame>, log: seq<Frame>, mac: Mac, self: u32, ip: u32) {
    && |log| == |log0| + 1 && log0 <= log
    && IsArp(log[|log0|], [255, 255, 255, 255, 255, 255], 1, mac, self, [0, 0, 0, 0, 0, 0], ip)
  }

  /** Packet `p` was put into an unused place of the queue. */
  ghost predicate Queued(queue0: seq<Waiting>, queue: seq<Waiting>, p: Packet, now: u32) {
    exists i :: 0 <= i < |queue0| && !queue0[i].valid && queue == queue0[i := Waiting(p, now, true)]
  }

  /** Everything that waits for `ip`, and nothing else, left the queue. */
  ghost predicate Flushed(queue0: seq<Waiting>, queue: seq<Waiting>, ip: u32) {
    && |queue| == |queue0|
    && forall i :: 0 <= i < |queue| ==> queue[i] == Settled(queue0[i], ip)
  }

  /** A place of the queue after what waited for `ip` left it. */
  function Settled(w: Waiting, ip: u32): Waiting { if w.valid && w.packet.dst == ip then w.(valid := false) else w }

  /** `table` is `table0` with the entry for `ip` refreshed, or put into the first unused
      place, or put in place of the entry with the oldest timestamp. */
  ghost predicate Learned(table0: seq<Entry>, table: seq<Entry>, ip: u32, mac: Mac, now: u32) {
    exists i :: 0 <= i < |table0| && table == table0[i := Entry(ip, mac, now, true)] && Place(table0, ip, i)
  }

  ghost predicate Place(table: seq<Entry>, ip: u32, i: int)
    requires 0 <= i < |table|
  {
    if exists k :: 0 <= k < |table| && table[k].valid && table[k].ip == ip then table[i].valid && table[i].ip == ip
    else if exists k :: 0 <= k < |table| && !table[k].valid then
      !table[i].valid && forall k :: 0 <= k < i ==> table[k].valid
    else
      && (forall k :: 0 <= k < |table| ==> table[i].timestamp <= table[k].timestamp)
      && (forall k :: 0 <= k < i ==> table[i].timestamp < table[k].timestamp)
  }

  lemma FoundIsOnly(table: seq<Entry>, ip: u32, i: nat)
    requires OnePerIp(table) && i < |table| && table[i].valid && table[i].ip == ip
    ensures FindIp(table, ip, 0) == i
  {
  }

  /** The fields of a message are all of its bytes. */
  lemma ArpUnique(b: seq<byte>, d: seq<byte>, oper: int, sha: Mac, spa: u32, tha: Mac, tpa: u32)
    requires ArpBytes(b, oper, sha, spa, tha, tpa) && ArpBytes(d, oper, sha, spa, tha, tpa)
    ensures b == d
  {
    hide Load32;
    SameWord(b, d, 14);
    SameWord(b, d, 24);
    assert b == b[0..6] + b[6..8] + b[8..14] + b[14..18] + b[18..24] + b[24..28];
    assert d == d[0..6] + d[6..8] + d[8..14] + d[14..18] + d[18..24] + d[24..28];
  }

  lemma SameWord(b: seq<byte>, d: seq<byte>, o: nat)
    requires o + 4 <= |b| && o + 4 <= |d| && Load32(b, o) == Load32(d, o)
    ensures b[o..o + 4] == d[o..o + 4]
  {
    Digits(b[o], b[o + 1], b[o + 2], b[o + 3]);
    Digits(d[o], d[o + 1], d[o + 2], d[o + 3]);
    assert b[o] == d[o] && b[o + 1] == d[o + 1] && b[o + 2] == d[o + 2] && b[o + 3] == d[o + 3];
  }

  lemma Digits(a: int, b: int, c: int, d: int)
    requires 0 <= a < 256 && 0 <= b < 256 && 0 <= c < 256 && 0 <= d < 256
    ensures var v := a + 0x100 * b + 0x1_0000 * c + 0x100_0000 * d;
            v % 0x100 == a && v / 0x100 % 0x100 == b && v / 0x1_0000 % 0x100 == c && v / 0x100_0000 == d
  {
    var v := a + 0x100 * b + 0x1_0000 * c + 0x100_0000 * d;
    assert v / 0x100 == b + 0x100 * c + 0x1_0000 * d && v / 0x1_0000 == c + 0x100 * d;
  }

  /** The table resolves `ip` to `mac`. */
  ghost predicate Resolves(table: seq<Entry>, ip: u32, mac: Mac) {
    Knows(table, ip) && table[FindIp(table, ip, 0)].mac == mac
  }

  lemma LearnedResolves(table0: seq<Entry>, table: seq<Entry>, ip: u32, mac: Mac, now: u32)
    requires Learned(table0, table, ip, mac, now) && OnePerIp(table)
    ensures Resolves(table, ip, mac)
  {
    hide Place, FindIp;
    var i :| 0 <= i < |table0| && table == table0[i := Entry(ip, mac, now, true)] && Place(table0, ip, i);
    FoundIsOnly(table, ip, i);
  }

  /** Two machines: the question of one, received by the other, is answered, and the answer, received by the
      first, resolves the address and empties its queue for it. */
  method Converse(a: Stack, b: Stack, question: seq<byte>, answer: seq<byte>, now: u32)
    requires a != b && a.Inv() && b.Inv()
    requires ArpBytes(question, 1, a.ownMac, a.arpIp, [0, 0, 0, 0, 0, 0], b.arpIp)
    requires ArpBytes(answer, 2, b.ownMac, b.arpIp, a.ownMac, a.arpIp)
    modifies a`table, a`queue, a`pending, a`log, a`books, b`table, b`queue, b`pending, b`log, b`books
    ensures a.Inv() && b.Inv()
    ensures |b.log| > |old(b.log)| && b.log[|old(b.log)|] == Arp(a.ownMac, answer)
    ensures Resolves(a.table, b.arpIp, b.ownMac) && Resolves(b.table, a.arpIp, a.ownMac)
    ensures Flushed(old(a.queue), a.queue, b.arpIp)
    ensures a.log == old(a.log) + Released(old(a.queue), 8, b.arpIp, b.ownMac, a.ipIp)
  {
    hide Booked, Learned, FindIp, Released, Load32, CountWaiting, Datagram, Resolves;
    b.Rx(question, now);
    assert Oper(question) == 1 && question[8..14] == a.ownMac;
    ArpUnique(b.log[|old(b.log)|].bytes, answer, 2, b.ownMac, b.arpIp, a.ownMac, a.arpIp);
    LearnedResolves(old(b.table), b.table, a.arpIp, a.ownMac, now);
    a.Rx(answer, now);
    assert Oper(answer) == 2;
    LearnedResolves(old(a.table), a.table, b.arpIp, b.ownMac, now);
  }
}
