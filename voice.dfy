/**
 * The server's voice round: every VOICE frame adds its Opus packet to the
 * sender's jitter buffer, the buffers whose front packet is due are popped
 * and decoded, the decoded frames are mixed sample by sample with int16
 * saturation, and the mix goes to the other members of the channel.
 * The Opus decoder is a parameter; the bytes of the mixed samples, dumped in
 * host order by setVoiceMessage, are given by a parameter as well.
 */
module Voice {
  import opened Wrappers
  import opened Bytes
  import opened Protocol
  import opened Text
  import opened Store
  import Codec
  import Parsers
  import Socket

  const FRAMES_PER_BUFFER: nat := 480
  const NUM_CHANNELS: nat := 2
  /** FRAMES_PER_BUFFER * NUM_CHANNELS interleaved samples: one decoded Opus frame. */
  const FRAME_SAMPLES: nat := 960

  const INT16_MIN: int := -32768
  const INT16_MAX: int := 32767

  /** decoded_data: one frame of stereo samples as opus_decode fills it. */
  type Pcm = s: seq<Int16> | |s| == FRAME_SAMPLES witness seq(FRAME_SAMPLES, _ => 0)

  // ---------------------------------------------------------------- mix_audio_buffers

  /** The two saturating ifs of mix_audio_buffers. */
  function Clamp16(x: int): (r: Int16)
    ensures INT16_MIN <= x <= INT16_MAX ==> r == x
    ensures x > INT16_MAX ==> r == INT16_MAX
    ensures x < INT16_MIN ==> r == INT16_MIN
  {
    if x > INT16_MAX then INT16_MAX else if x < INT16_MIN then INT16_MIN else x
  }

  /** mixed_sample after the inner loop: sample i of every buffer, added in buffer order. */
  function SumAt(buffers: seq<seq<Int16>>, i: nat): int
    requires forall k :: 0 <= k < |buffers| ==> i < |buffers[k]|
  {
    if buffers == [] then 0 else SumAt(buffers[..|buffers| - 1], i) + buffers[|buffers| - 1][i]
  }

  /** The n samples mix_audio_buffers writes. */
  function Mix(buffers: seq<seq<Int16>>, n: nat): (r: seq<Int16>)
    requires forall k :: 0 <= k < |buffers| ==> n <= |buffers[k]|
    ensures |r| == n
  {
    seq(n, i requires 0 <= i < n => Clamp16(SumAt(buffers, i)))
  }

  /** With one buffer the mix is that buffer: its samples are already in range. */
  lemma MixOfOne(b: seq<Int16>, n: nat)
    requires n <= |b|
    ensures Mix([b], n) == b[..n]
  {
    forall i | 0 <= i < n
      ensures Mix([b], n)[i] == b[i]
    {
      assert [b][..0] == [];
      assert SumAt([b], i) == b[i];
    }
  }

  /** With no buffer the mix is silence. */
  lemma MixOfNone(n: nat)
    ensures Mix([], n) == seq(n, _ => 0)
  {
  }

  /** A saturated sum: every mixed sample is the clamp of the exact sum, and equals it whenever that fits. */
  lemma MixSaturates(buffers: seq<seq<Int16>>, n: nat, i: nat)
    requires forall k :: 0 <= k < |buffers| ==> n <= |buffers[k]|
    requires i < n
    ensures SumAt(buffers, i) > INT16_MAX ==> Mix(buffers, n)[i] == INT16_MAX
    ensures SumAt(buffers, i) < INT16_MIN ==> Mix(buffers, n)[i] == INT16_MIN
    ensures INT16_MIN <= SumAt(buffers, i) <= INT16_MAX ==> Mix(buffers, n)[i] == SumAt(buffers, i)
  {
  }

  /**
   * mix_audio_buffers(buffers, output, frame_count): zero the first
   * frame_count * NUM_CHANNELS samples, then write each one's saturated sum.
   * The decoded buffers are read-only and given by value.
   */
  method MixAudioBuffers(buffers: seq<seq<Int16>>, output: array<Int16>, frameCount: nat)
    requires frameCount * NUM_CHANNELS <= output.Length
    requires forall k :: 0 <= k < |buffers| ==> frameCount * NUM_CHANNELS <= |buffers[k]|
    modifies output
    ensures output[..frameCount * NUM_CHANNELS] == Mix(buffers, frameCount * NUM_CHANNELS)
    ensures output[frameCount * NUM_CHANNELS..] == old(output[frameCount * NUM_CHANNELS..])
  {
    var n := frameCount * NUM_CHANNELS;
    var z := 0;
    while z < n
      invariant 0 <= z <= n
      invariant output[n..] == old(output[n..])
    {
      output[z] := 0;
      z := z + 1;
    }
    var i := 0;
    while i < n
      invariant 0 <= i <= n
      invariant forall j :: 0 <= j < i ==> output[j] == Clamp16(SumAt(buffers, j))
      invariant output[n..] == old(output[n..])
    {
      var mixed := 0;
      var k := 0;
      while k < |buffers|
        invariant 0 <= k <= |buffers|
        invariant mixed == SumAt(buffers[..k], i)
      {
        assert buffers[..k + 1][..k] == buffers[..k];
        mixed := mixed + buffers[k][i];
        k := k + 1;
      }
      assert buffers[..|buffers|] == buffers;
      if mixed > INT16_MAX {
        mixed := INT16_MAX;
      }
      if mixed < INT16_MIN {
        mixed := INT16_MIN;
      }
      output[i] := mixed;
      i := i + 1;
    }
  }

  // ---------------------------------------------------------------- the samples on the wire

  /** The two bytes of an int16_t in memory, low byte first: the model takes the host to be little-endian. */
  function Le16(x: Int16): (b: seq<Byte>)
    ensures |b| == 2
  {
    var u := if x < 0 then x + 0x1_0000 else x;
    [u % 256, u / 256]
  }

  /** The int16_t that two bytes of memory hold, low byte first. */
  function ReadLe16(lo: Byte, hi: Byte): Int16
  {
    var u := hi * 256 + lo;
    if u >= 0x8000 then u - 0x1_0000 else u
  }

  /** The samples' memory as setVoiceMessage(samples) copies it into the body. */
  function SampleBytes(s: seq<Int16>): (b: seq<Byte>)
    ensures |b| == 2 * |s|
    decreases |s|
  {
    if s == [] then [] else Le16(s[0]) + SampleBytes(s[1..])
  }

  /** A listener's view of a mixed body: the bytes taken back two by two. */
  function SamplesOf(b: seq<Byte>): (s: seq<Int16>)
    requires |b| % 2 == 0
    ensures |s| == |b| / 2
    decreases |b|
  {
    if b == [] then [] else [ReadLe16(b[0], b[1])] + SamplesOf(b[2..])
  }

  /** The samples come back from their bytes unchanged. */
  lemma {:induction false} SamplesRoundTrip(s: seq<Int16>)
    ensures SamplesOf(SampleBytes(s)) == s
    decreases |s|
  {
    if s != [] {
      var b := SampleBytes(s);
      assert b == Le16(s[0]) + SampleBytes(s[1..]);
      assert b[2..] == SampleBytes(s[1..]);
      SamplesRoundTrip(s[1..]);
      assert ReadLe16(b[0], b[1]) == s[0];
    }
  }

  // ---------------------------------------------------------------- the jitter buffers

  /** One entry of client_buffers: a socket and its queue of packets, front first. */
  datatype Slot = Slot(socket: int, queue: seq<AudioPacket>)

  /** client_buffers is a std::map: its entries in ascending socket order, one per socket. */
  type Buffers = seq<Slot>

  predicate Ordered(bufs: Buffers)
  {
    forall i, j :: 0 <= i < j < |bufs| ==> bufs[i].socket < bufs[j].socket
  }

  /** Every packet of the queue fits its Opus buffer. */
  predicate ValidQueue(q: seq<AudioPacket>)
  {
    forall k :: 0 <= k < |q| ==> q[k].Valid()
  }

  predicate ValidBuffers(bufs: Buffers)
  {
    Ordered(bufs) && forall i :: 0 <= i < |bufs| ==> ValidQueue(bufs[i].queue)
  }

  /** client_buffers[s] as a value: the socket's queue, an empty one when it has none yet. */
  function Queue(bufs: Buffers, s: int): seq<AudioPacket>
    decreases |bufs|
  {
    if bufs == [] then [] else if bufs[0].socket == s then bufs[0].queue else Queue(bufs[1..], s)
  }

  /** client_buffers[s].push(p): the entry is created in its place when missing. */
  function Pushed(bufs: Buffers, s: int, p: AudioPacket): (r: Buffers)
    ensures |r| <= |bufs| + 1
    decreases |bufs|
  {
    if bufs == [] then [Slot(s, [p])]
    else if bufs[0].socket == s then [Slot(s, bufs[0].queue + [p])] + bufs[1..]
    else if s < bufs[0].socket then [Slot(s, [p])] + bufs
    else [bufs[0]] + Pushed(bufs[1..], s, p)
  }

  /** A socket below the pusher's and below every entry stays below every entry after the push. */
  lemma {:induction false} PushedAbove(bufs: Buffers, s: int, p: AudioPacket, x: int)
    requires Ordered(bufs) && x < s && (bufs != [] ==> x < bufs[0].socket)
    ensures forall j :: 0 <= j < |Pushed(bufs, s, p)| ==> x < Pushed(bufs, s, p)[j].socket
    decreases |bufs|
  {
    if bufs != [] && s > bufs[0].socket {
      if |bufs| > 1 {
        assert bufs[0].socket < bufs[1].socket;
      }
      PushedAbove(bufs[1..], s, p, x);
    }
  }

  /** Pushing keeps the entries in order, one per socket, every packet fitting. */
  lemma {:induction false} PushedValid(bufs: Buffers, s: int, p: AudioPacket)
    requires ValidBuffers(bufs) && p.Valid()
    ensures ValidBuffers(Pushed(bufs, s, p))
    decreases |bufs|
  {
    var r := Pushed(bufs, s, p);
    if bufs == [] {
      assert r == [Slot(s, [p])];
    } else if bufs[0].socket == s {
      assert r == [Slot(s, bufs[0].queue + [p])] + bufs[1..];
      assert ValidQueue(bufs[0].queue);
    } else if s < bufs[0].socket {
      assert r == [Slot(s, [p])] + bufs;
    } else {
      var tail := Pushed(bufs[1..], s, p);
      assert r == [bufs[0]] + tail;
      PushedValid(bufs[1..], s, p);
      if |bufs| > 1 {
        assert bufs[0].socket < bufs[1].socket;
      }
      PushedAbove(bufs[1..], s, p, bufs[0].socket);
      assert forall j :: 0 <= j < |tail| ==> r[j + 1] == tail[j];
    }
  }

  /** Pushing appends to the pusher's queue and leaves every other socket's as it was. */
  lemma {:induction false} PushedQueue(bufs: Buffers, s: int, p: AudioPacket, t: int)
    requires Ordered(bufs)
    ensures Queue(Pushed(bufs, s, p), t) == if t == s then Queue(bufs, s) + [p] else Queue(bufs, t)
    decreases |bufs|
  {
    if bufs == [] {
    } else if bufs[0].socket == s {
      var r := Pushed(bufs, s, p);
      assert r[1..] == bufs[1..];
    } else if s < bufs[0].socket {
      var r := Pushed(bufs, s, p);
      assert r[1..] == bufs;
      if t == s {
        QueueBelow(bufs, s);
      }
    } else {
      var r := Pushed(bufs, s, p);
      assert r[1..] == Pushed(bufs[1..], s, p);
      PushedQueue(bufs[1..], s, p, t);
    }
  }

  /** A socket below every entry has no queue. */
  lemma {:induction false} QueueBelow(bufs: Buffers, s: int)
    requires Ordered(bufs) && (bufs != [] ==> s < bufs[0].socket)
    ensures Queue(bufs, s) == []
    decreases |bufs|
  {
    if bufs != [] {
      if |bufs| > 1 {
        assert bufs[0].socket < bufs[1].socket;
      }
      QueueBelow(bufs[1..], s);
    }
  }

  /** The first pass: min_timestamp starts at the new packet's and drops to any smaller front, in socket order. */
  function MinFront(bufs: Buffers, m: int): (r: int)
    decreases |bufs|
  {
    if bufs == [] then m
    else
      var q := bufs[0].queue;
      MinFront(bufs[1..], if q != [] && q[0].timestamp < m then q[0].timestamp else m)
  }

  /** min_timestamp never exceeds the new packet's timestamp nor any non-empty front, and is one of them. */
  lemma {:induction false} MinFrontBound(bufs: Buffers, m: int)
    ensures MinFront(bufs, m) <= m
    ensures forall i :: 0 <= i < |bufs| && bufs[i].queue != [] ==> MinFront(bufs, m) <= bufs[i].queue[0].timestamp
    ensures MinFront(bufs, m) == m
      || exists i :: 0 <= i < |bufs| && bufs[i].queue != [] && MinFront(bufs, m) == bufs[i].queue[0].timestamp
    decreases |bufs|
  {
    if bufs != [] {
      var q := bufs[0].queue;
      var m1 := if q != [] && q[0].timestamp < m then q[0].timestamp else m;
      MinFrontBound(bufs[1..], m1);
      var r := MinFront(bufs, m);
      assert r == MinFront(bufs[1..], m1);
      forall i | 1 <= i < |bufs|
        ensures bufs[i] == bufs[1..][i - 1]
      {
      }
      if r != m && r != m1 {
        var i :| 0 <= i < |bufs[1..]| && bufs[1..][i].queue != [] && r == bufs[1..][i].queue[0].timestamp;
        assert bufs[1..][i] == bufs[i + 1];
      }
    }
  }

  /** A queue is due when its front is no later than min_timestamp. */
  predicate Due(q: seq<AudioPacket>, min: int)
  {
    q != [] && q[0].timestamp <= min
  }

  function PopSlot(e: Slot, min: int): Slot
  {
    if Due(e.queue, min) then Slot(e.socket, e.queue[1..]) else e
  }

  /** The second pass on the buffers: every due queue loses its front, decoded or not; nothing else changes. */
  function PopDue(bufs: Buffers, min: int): (r: Buffers)
    ensures |r| == |bufs|
    ensures forall i :: 0 <= i < |bufs| ==> r[i] == PopSlot(bufs[i], min)
  {
    seq(|bufs|, i requires 0 <= i < |bufs| => PopSlot(bufs[i], min))
  }

  /** Popping keeps the sockets and the packets' validity. */
  lemma PopDueValid(bufs: Buffers, min: int)
    requires ValidBuffers(bufs)
    ensures ValidBuffers(PopDue(bufs, min))
  {
    var r := PopDue(bufs, min);
    forall i | 0 <= i < |r|
      ensures ValidQueue(r[i].queue)
    {
      assert ValidQueue(bufs[i].queue);
    }
  }

  /** The packet a due slot's front decodes to, if it decodes. */
  function DecodeFront(e: Slot, min: int, decode: seq<Byte> -> Option<Pcm>): seq<Pcm>
    requires ValidQueue(e.queue)
  {
    if Due(e.queue, min) && decode(e.queue[0].Payload()).Some? then [decode(e.queue[0].Payload()).value] else []
  }

  /** The second pass on the frames: the due fronts that decode, in socket order. */
  function DecodedDue(bufs: Buffers, min: int, decode: seq<Byte> -> Option<Pcm>): seq<Pcm>
    requires forall i :: 0 <= i < |bufs| ==> ValidQueue(bufs[i].queue)
    decreases |bufs|
  {
    if bufs == [] then []
    else DecodedDue(bufs[..|bufs| - 1], min, decode) + DecodeFront(bufs[|bufs| - 1], min, decode)
  }

  /** Only due fronts that decode are mixed: every frame comes from one of them, at most one per socket. */
  lemma {:induction false} DecodedDueFromDue(bufs: Buffers, min: int, decode: seq<Byte> -> Option<Pcm>)
    requires forall i :: 0 <= i < |bufs| ==> ValidQueue(bufs[i].queue)
    ensures |DecodedDue(bufs, min, decode)| <= |bufs|
    ensures forall f :: f in DecodedDue(bufs, min, decode) ==>
      exists i :: 0 <= i < |bufs| && Due(bufs[i].queue, min) && decode(bufs[i].queue[0].Payload()) == Some(f)
    decreases |bufs|
  {
    if bufs != [] {
      var init := bufs[..|bufs| - 1];
      var last := bufs[|bufs| - 1];
      var here := DecodeFront(last, min, decode);
      var rest := DecodedDue(init, min, decode);
      DecodedDueFromDue(init, min, decode);
      assert DecodedDue(bufs, min, decode) == rest + here;
      forall f | f in rest + here
        ensures exists i :: 0 <= i < |bufs| && Due(bufs[i].queue, min) && decode(bufs[i].queue[0].Payload()) == Some(f)
      {
        if f in here {
          assert Due(bufs[|bufs| - 1].queue, min) && decode(bufs[|bufs| - 1].queue[0].Payload()) == Some(f);
        } else {
          var i :| 0 <= i < |init| && Due(init[i].queue, min) && decode(init[i].queue[0].Payload()) == Some(f);
          assert init[i] == bufs[i];
        }
      }
    }
  }

  /** A frame decodes from every due front that decodes: none is dropped. */
  lemma {:induction false} DueDecodedKept(bufs: Buffers, min: int, decode: seq<Byte> -> Option<Pcm>, i: nat)
    requires forall k :: 0 <= k < |bufs| ==> ValidQueue(bufs[k].queue)
    requires i < |bufs|
    ensures forall f :: f in DecodeFront(bufs[i], min, decode) ==> f in DecodedDue(bufs, min, decode)
    decreases |bufs|
  {
    var init := bufs[..|bufs| - 1];
    if i < |init| {
      assert init[i] == bufs[i];
      DueDecodedKept(init, min, decode, i);
    }
  }

  // ---------------------------------------------------------------- recipients

  /** A user's id and its socket field as std::stoi reads it (None where stoi throws). */
  datatype Entry = Entry(id: string, socket: Option<int>)

  function EntryOf(u: User): (e: Entry)
    ensures e.id == u.id && e.socket == Stoi(u.socketNumber)
  {
    Entry(u.id, Stoi(u.socketNumber))
  }

  function SocketEntries(users: seq<User>): (es: seq<Entry>)
    ensures |es| == |users| && forall i :: 0 <= i < |users| ==> es[i] == EntryOf(users[i])
  {
    seq(|users|, i requires 0 <= i < |users| => EntryOf(users[i]))
  }

  /** createUserSocketMap after the users so far: emplace keeps the first socket per id, stoi failures are skipped. */
  function SocketMap(users: seq<Entry>): (m: map<string, int>)
    decreases |users|
  {
    if users == [] then map[] else Emplace(SocketMap(users[..|users| - 1]), users[|users| - 1])
  }

  /** One step of createUserSocketMap: a socket field that parses is added unless the id is already mapped. */
  function Emplace(m: map<string, int>, e: Entry): map<string, int>
  {
    match e.socket
    case None => m
    case Some(s) => if e.id in m then m else m[e.id := s]
  }

  /** A user with this id whose socket field parses. */
  predicate Parses(e: Entry, id: string)
  {
    e.id == id && e.socket.Some?
  }

  /** The first user with the id whose socket field parses. */
  predicate FirstParsed(users: seq<Entry>, id: string, j: nat)
  {
    j < |users| && Parses(users[j], id) && forall i :: 0 <= i < j ==> !Parses(users[i], id)
  }

  /** One more user adds its id exactly when its socket field parses. */
  lemma SocketMapLast(users: seq<Entry>, id: string)
    requires users != []
    ensures id in SocketMap(users) <==> id in SocketMap(users[..|users| - 1]) || Parses(users[|users| - 1], id)
  {
  }

  /** A user with a parsable socket field gets its id mapped. */
  lemma {:induction false} SocketMapHas(users: seq<Entry>, id: string, j: nat)
    requires j < |users| && Parses(users[j], id)
    ensures id in SocketMap(users)
    decreases |users|
  {
    var init := users[..|users| - 1];
    SocketMapLast(users, id);
    if j < |init| {
      assert init[j] == users[j];
      SocketMapHas(init, id, j);
    }
  }

  /** An id is mapped only if some user with it has a parsable socket field. */
  lemma {:induction false} SocketMapFrom(users: seq<Entry>, id: string)
    ensures id in SocketMap(users) ==> exists j :: 0 <= j < |users| && Parses(users[j], id)
    decreases |users|
  {
    if users != [] && id in SocketMap(users) {
      var init := users[..|users| - 1];
      SocketMapLast(users, id);
      SocketMapFrom(init, id);
      if id in SocketMap(init) {
        var j :| 0 <= j < |init| && Parses(init[j], id);
        assert users[j] == init[j];
      } else {
        assert Parses(users[|users| - 1], id);
      }
    }
  }

  /** An id is mapped iff some user with it has a parsable socket field. */
  lemma SocketMapDomain(users: seq<Entry>, id: string)
    ensures id in SocketMap(users) <==> exists j :: 0 <= j < |users| && Parses(users[j], id)
  {
    SocketMapFrom(users, id);
    if exists j :: 0 <= j < |users| && Parses(users[j], id) {
      var j :| 0 <= j < |users| && Parses(users[j], id);
      SocketMapHas(users, id, j);
    }
  }

  /** emplace keeps the first: a mapped id maps to the socket of its first user with a parsable one. */
  lemma {:induction false} SocketMapFirstWins(users: seq<Entry>, id: string)
    ensures id in SocketMap(users) ==>
      exists j: nat :: FirstParsed(users, id, j) && SocketMap(users)[id] == users[j].socket.value
    decreases |users|
  {
    if users != [] {
      var init := users[..|users| - 1];
      var u := users[|users| - 1];
      SocketMapFirstWins(init, id);
      if id in SocketMap(init) {
        var j: nat :| FirstParsed(init, id, j) && SocketMap(init)[id] == init[j].socket.value;
        assert users[j] == init[j];
        assert forall i :: 0 <= i < j ==> users[i] == init[i];
        assert FirstParsed(users, id, j);
      } else if Parses(u, id) {
        SocketMapDomain(init, id);
        assert forall i :: 0 <= i < |init| ==> users[i] == init[i];
        assert FirstParsed(users, id, |users| - 1);
      }
    }
  }

  /** createUserSocketMap */
  method CreateUserSocketMap(users: seq<User>) returns (m: map<string, int>)
    ensures m == SocketMap(SocketEntries(users))
  {
    ghost var es := SocketEntries(users);
    m := map[];
    var i := 0;
    while i < |users|
      invariant 0 <= i <= |users|
      invariant m == SocketMap(es[..i])
    {
      assert es[..i + 1][..i] == es[..i];
      var u := users[i];
      ghost var before := m;
      var socket := Stoi(u.socketNumber);
      if socket.Some? && u.id !in m {
        m := m[u.id := socket.value];
      }
      assert es[i] == Entry(u.id, socket);
      assert m == Emplace(before, es[i]);
      i := i + 1;
    }
    assert es[..|users|] == es;
  }

  /** getClientSocketsOptimized over the members in the set's iteration order: the sockets of the mapped ones. */
  function SocketsOf(members: seq<string>, m: map<string, int>): (r: seq<int>)
    ensures |r| <= |members|
    decreases |members|
  {
    if members == [] then []
    else
      var r := SocketsOf(members[..|members| - 1], m);
      var id := members[|members| - 1];
      if id in m then r + [m[id]] else r
  }

  /** A socket is listed iff it is the mapped socket of a member; a member missing from the map is skipped. */
  lemma {:induction false} SocketsOfMembers(members: seq<string>, m: map<string, int>, s: int)
    ensures s in SocketsOf(members, m) <==> exists id :: id in members && id in m && m[id] == s
    decreases |members|
  {
    if members != [] {
      var init := members[..|members| - 1];
      SocketsOfMembers(init, m, s);
      assert members == init + [members[|members| - 1]];
      forall id | id in members ensures id in init || id == members[|members| - 1] { }
    }
  }

  /** broadcast_audio's skip and the erase before it: every socket but the sender's, in order. */
  function OtherThan(sockets: seq<int>, sender: int): (r: seq<int>)
    ensures |r| <= |sockets|
    decreases |sockets|
  {
    if sockets == [] then []
    else (if sockets[0] == sender then [] else [sockets[0]]) + OtherThan(sockets[1..], sender)
  }

  /** The sender never receives its own mix, and every other listed socket does. */
  lemma {:induction false} OtherThanMembers(sockets: seq<int>, sender: int, s: int)
    ensures s in OtherThan(sockets, sender) <==> s in sockets && s != sender
    decreases |sockets|
  {
    if sockets != [] {
      OtherThanMembers(sockets[1..], sender, s);
      assert sockets == [sockets[0]] + sockets[1..];
    }
  }

  /** The frame broadcast_audio sends: a fresh Message after setVoiceMessage(samples, channel). */
  function MixFrame(channel: string, samples: seq<Int16>): (f: Frame)
    ensures f.header.typ == TypeCode(VOICE) && f.header.flag == 0
    ensures f.body == Codec.PcmVoiceBody(channel, SampleBytes(samples))
  {
    var body := Codec.PcmVoiceBody(channel, SampleBytes(samples));
    Frame(Header(TypeCode(VOICE), Trunc32(|body|), 0), body)
  }

  /** A listener gets the mixed samples back from the body, after the channel. */
  lemma MixFrameCarriesSamples(channel: string, samples: seq<Int16>)
    ensures var b := MixFrame(channel, samples).body;
      |b| == 4 + |channel| + 2 * |samples| && SamplesOf(b[4 + |channel|..]) == samples
  {
    SamplesRoundTrip(samples);
  }

  /**
   * What a VOICE frame leads to: a malformed body ends the session; otherwise
   * the sends of the round and what the round's broadcast closes.
   */
  datatype VoiceOutcome = Malformed | Round(channel: string, sends: seq<(int, Frame)>, closed: Closed)

  /**
   * What the MySocket local to broadcast_audio closes when it goes out of
   * scope: its destructor calls closeSocket on the last socket it was pointed
   * at, or on its never-set sock field when it was pointed at none.
   */
  datatype Closed =
    | NothingClosed          // broadcast_audio was not called
    | LastRecipient(socket: int)
    | Indeterminate          // the uninitialised descriptor; the model does not pick one

  /** The last element, if any. */
  function LastOf(s: seq<int>): Option<int>
  {
    if s == [] then None else Some(s[|s| - 1])
  }

  /** The socket broadcast_audio's local MySocket closes on return: the last one it sent to. */
  function ClosedAfter(sockets: seq<int>, sender: int): (c: Closed)
    ensures c != NothingClosed
    ensures c.Indeterminate? <==> OtherThan(sockets, sender) == []
    ensures c.LastRecipient? ==> c.socket in sockets && c.socket != sender
  {
    var others := OtherThan(sockets, sender);
    if others == [] then Indeterminate
    else
      OtherThanMembers(sockets, sender, others[|others| - 1]);
      LastRecipient(others[|others| - 1])
  }

  function Broadcasts(sockets: seq<int>, sender: int, f: Frame): (r: seq<(int, Frame)>)
    ensures |r| == |OtherThan(sockets, sender)|
    ensures forall k :: 0 <= k < |r| ==> r[k] == (OtherThan(sockets, sender)[k], f)
  {
    var others := OtherThan(sockets, sender);
    seq(|others|, k requires 0 <= k < |others| => (others[k], f))
  }

  /**
   * The jitter buffers and the member client_sockets of the server. The
   * buffers only ever hold packets whose Opus length fits their buffer.
   */
  class Jitter {
    var clientBuffers: Buffers
    var clientSockets: seq<int>

    predicate Valid()
      reads this
    {
      ValidBuffers(clientBuffers)
    }

    constructor ()
      ensures clientBuffers == [] && clientSockets == [] && Valid()
    {
      clientBuffers := [];
      clientSockets := [];
    }

    /** client_buffers[socket].push(packet) */
    method Push(socket: int, packet: AudioPacket)
      requires Valid() && packet.Valid()
      modifies this
      ensures clientBuffers == Pushed(old(clientBuffers), socket, packet) && Valid()
      ensures clientSockets == old(clientSockets)
    {
      PushedValid(clientBuffers, socket, packet);
      clientBuffers := Pushed(clientBuffers, socket, packet);
    }

    /** The first pass, in socket order: the smallest front timestamp, starting from the new packet's. */
    method MinTimestamp(start: int) returns (min: int)
      ensures min == MinFront(clientBuffers, start)
    {
      min := start;
      var i := 0;
      while i < |clientBuffers|
        invariant 0 <= i <= |clientBuffers|
        invariant MinFront(clientBuffers[i..], min) == MinFront(clientBuffers, start)
      {
        var q := clientBuffers[i].queue;
        assert clientBuffers[i..][1..] == clientBuffers[i + 1..];
        if q != [] && q[0].timestamp < min {
          min := q[0].timestamp;
        }
        i := i + 1;
      }
    }

    /** The second pass, in socket order: decode every due front, keep the frames that decode, pop it either way. */
    method PopDecoded(min: int, decode: seq<Byte> -> Option<Pcm>) returns (decoded: seq<Pcm>)
      requires Valid()
      modifies this
      ensures decoded == DecodedDue(old(clientBuffers), min, decode)
      ensures clientBuffers == PopDue(old(clientBuffers), min) && Valid()
      ensures clientSockets == old(clientSockets)
    {
      var bufs := clientBuffers;
      decoded := [];
      var i := 0;
      while i < |bufs|
        invariant 0 <= i <= |bufs| && |clientBuffers| == |bufs|
        invariant decoded == DecodedDue(bufs[..i], min, decode)
        invariant forall j :: 0 <= j < |bufs| ==> clientBuffers[j] == if j < i then PopSlot(bufs[j], min) else bufs[j]
        invariant clientSockets == old(clientSockets)
      {
        var e := bufs[i];
        assert bufs[..i + 1][..i] == bufs[..i];
        if Due(e.queue, min) {
          assert ValidQueue(e.queue);
          var frame := decode(e.queue[0].Payload());
          if frame.Some? {
            decoded := decoded + [frame.value];
          }
          clientBuffers := clientBuffers[i := Slot(e.socket, e.queue[1..])];
        }
        i := i + 1;
      }
      assert bufs[..|bufs|] == bufs;
      assert clientBuffers == PopDue(bufs, min);
      PopDueValid(bufs, min);
    }

    /** Both passes of the round over the buffers. */
    method Drain(start: int, decode: seq<Byte> -> Option<Pcm>) returns (min: int, decoded: seq<Pcm>)
      requires Valid()
      modifies this
      ensures min == MinFront(old(clientBuffers), start)
      ensures decoded == DecodedDue(old(clientBuffers), min, decode)
      ensures clientBuffers == PopDue(old(clientBuffers), min) && Valid()
      ensures clientSockets == old(clientSockets)
    {
      min := MinTimestamp(start);
      decoded := PopDecoded(min, decode);
    }

    /** getClientSocketsOptimized: clear, then push the socket of every mapped member. */
    method GetClientSocketsOptimized(members: seq<string>, socketMap: map<string, int>) returns (sockets: seq<int>)
      modifies this
      ensures clientSockets == SocketsOf(members, socketMap) && sockets == clientSockets
      ensures clientBuffers == old(clientBuffers)
    {
      clientSockets := [];
      var i := 0;
      while i < |members|
        invariant 0 <= i <= |members|
        invariant clientSockets == SocketsOf(members[..i], socketMap)
        invariant clientBuffers == old(clientBuffers)
      {
        assert members[..i + 1][..i] == members[..i];
        var id := members[i];
        if id in socketMap {
          clientSockets := clientSockets + [socketMap[id]];
        }
        i := i + 1;
      }
      assert members[..|members|] == members;
      sockets := clientSockets;
    }

    /**
     * broadcast_audio: one voice frame per listed socket other than the
     * sender's, each sent through the one local MySocket pointed at that
     * socket; on return that MySocket closes the socket it was last pointed at.
     */
    method BroadcastAudio(audioData: seq<Int16>, sender: int, channel: string) returns (sends: seq<(int, Frame)>, closed: Closed)
      ensures sends == Broadcasts(clientSockets, sender, MixFrame(channel, audioData))
      ensures closed == ClosedAfter(clientSockets, sender)
    {
      var bytes := SampleBytes(audioData);
      ghost var f := MixFrame(channel, audioData);
      sends := [];
      var client: Option<int> := None;
      var i := 0;
      while i < |clientSockets|
        invariant 0 <= i <= |clientSockets|
        invariant sends == Broadcasts(clientSockets[..i], sender, f)
        invariant client == LastOf(OtherThan(clientSockets[..i], sender))
      {
        BroadcastsStep(clientSockets, i, sender, f);
        if clientSockets[i] != sender {
          var voiceMessage := new Socket.Message();
          var ok := voiceMessage.SetPcmVoiceMessage(bytes, channel);
          assert voiceMessage.Value() == f;
          client := Some(clientSockets[i]);
          sends := sends + [(clientSockets[i], voiceMessage.Value())];
        }
        i := i + 1;
      }
      assert clientSockets[..|clientSockets|] == clientSockets;
      closed := if client.Some? then LastRecipient(client.value) else Indeterminate;
    }

    /**
     * The VOICE branch of messageProcessing for the frame body received on
     * socket sock, packet being the message's audio packet. The body is parsed
     * with the Opus bound the packet buffer needs; the round then refreshes the
     * user list and the channel's member set of db.
     */
    method VoiceRound(db: DataBase, sock: int, packet: AudioPacket, body: seq<Byte>, decode: seq<Byte> -> Option<Pcm>)
      returns (outcome: VoiceOutcome)
      requires Valid() && packet.Valid()
      modifies this, db
      ensures var r := RoundOf(old(clientBuffers), old(clientSockets), old(db.disk), sock, packet, body, decode);
        outcome == r.outcome && clientBuffers == r.buffers && clientSockets == r.sockets && Valid()
      ensures outcome.Round? ==> (db.names == Users(db.disk.users) && db.channelMembers == TokenSet(MembersOf(db.disk, outcome.channel)))
      ensures outcome.Malformed? ==> db.names == old(db.names) && db.channelMembers == old(db.channelMembers)
      ensures db.disk == old(db.disk) && db.channels == old(db.channels) && db.channelHistory == old(db.channelHistory)
    {
      var fields := Parsers.BoundedVoiceFieldsOf(body);
      if fields.None? {
        return Malformed;
      }
      var channel := fields.value.channel;
      var stored := Parsers.StorePayload(packet, fields.value.opus);
      Push(sock, stored);
      var min, decoded := Drain(stored.timestamp, decode);
      var sockets := RefreshRecipients(db, channel);
      var sends, closed := MixAndBroadcast(decoded, sock, channel);
      outcome := Round(channel, sends, closed);
    }

    /** The database reloads of the round, then createUserSocketMap and getClientSocketsOptimized. */
    method RefreshRecipients(db: DataBase, channel: string) returns (sockets: seq<int>)
      modifies this, db
      ensures sockets == clientSockets == Recipients(db.disk, channel)
      ensures db.names == Users(db.disk.users) && db.channelMembers == TokenSet(MembersOf(db.disk, channel))
      ensures db.disk == old(db.disk) && db.channels == old(db.channels) && db.channelHistory == old(db.channelHistory)
      ensures clientBuffers == old(clientBuffers)
    {
      db.names := AddFileNicknames(db.disk.users);
      db.channelMembers := AddFile(MembersOf(db.disk, channel));
      var userSocketMap := CreateUserSocketMap(db.names);
      var members := MemberOrder(MembersOf(db.disk, channel));
      sockets := GetClientSocketsOptimized(members, userSocketMap);
    }

    /** When some frame decoded: mix the frames into a zeroed buffer and broadcast the mix. */
    method MixAndBroadcast(decoded: seq<Pcm>, sock: int, channel: string) returns (sends: seq<(int, Frame)>, closed: Closed)
      ensures sends == if decoded == [] then [] else Broadcasts(clientSockets, sock, MixFrame(channel, Mix(decoded, FRAME_SAMPLES)))
      ensures closed == if decoded == [] then NothingClosed else ClosedAfter(clientSockets, sock)
    {
      sends, closed := [], NothingClosed;
      if decoded != [] {
        var mixed := new Int16[FRAME_SAMPLES](_ => 0);
        MixAudioBuffers(decoded, mixed, FRAMES_PER_BUFFER);
        assert mixed[..] == mixed[..FRAME_SAMPLES];
        sends, closed := BroadcastAudio(mixed[..], sock, channel);
      }
    }
  }

  /** The order in which the member set is iterated: the model takes the file's order, each member at its first line. */
  function MemberOrder(content: string): (r: seq<string>)
    ensures forall w :: w in r <==> w in TokenSet(content)
    ensures forall i, j :: 0 <= i < j < |r| ==> r[i] != r[j]
  {
    Distinct(Words(content))
  }

  /** The words, each at its first occurrence. */
  function Distinct(ws: seq<string>): (r: seq<string>)
    ensures forall w :: w in r <==> w in ws
    ensures forall i, j :: 0 <= i < j < |r| ==> r[i] != r[j]
    decreases |ws|
  {
    if ws == [] then []
    else
      var r := Distinct(ws[..|ws| - 1]);
      var w := ws[|ws| - 1];
      assert forall v :: v in ws <==> v in ws[..|ws| - 1] || v == w;
      if w in r then r else r + [w]
  }

  /** What a VOICE round leaves: the outcome, the jitter buffers and the member client_sockets. */
  datatype RoundResult = RoundResult(outcome: VoiceOutcome, buffers: Buffers, sockets: seq<int>)

  /** The sockets the round lists: those of the channel's members whose user line has a parsable socket. */
  function Recipients(d: Disk, channel: string): seq<int>
  {
    SocketsOf(MemberOrder(MembersOf(d, channel)), SocketMap(SocketEntries(Users(d.users))))
  }

  /** The VOICE round as a value, specifying VoiceRound. */
  function RoundOf(bufs: Buffers, sockets: seq<int>, d: Disk, sock: int, packet: AudioPacket, body: seq<Byte>,
                   decode: seq<Byte> -> Option<Pcm>): (r: RoundResult)
    requires ValidBuffers(bufs) && packet.Valid()
    ensures r.outcome.Malformed? <==> Parsers.BoundedVoiceFieldsOf(body).None?
    ensures r.outcome.Malformed? ==> r.buffers == bufs && r.sockets == sockets
    ensures ValidBuffers(r.buffers)
    ensures r.outcome.Round? ==> (
      && r.outcome.channel == Parsers.BoundedVoiceFieldsOf(body).value.channel
      && r.sockets == Recipients(d, r.outcome.channel)
      && (r.outcome.sends == [] || r.outcome.sends == Broadcasts(r.sockets, sock, r.outcome.sends[0].1))
      && |r.buffers| <= |bufs| + 1
      && (r.outcome.sends != [] ==> r.outcome.closed == LastRecipient(r.outcome.sends[|r.outcome.sends| - 1].0))
      && (r.outcome.closed.Indeterminate? ==> r.outcome.sends == []))
  {
    match Parsers.BoundedVoiceFieldsOf(body)
    case None => RoundResult(Malformed, bufs, sockets)
    case Some(v) =>
      var stored := Parsers.StorePayload(packet, v.opus);
      PushedValid(bufs, sock, stored);
      var pushed := Pushed(bufs, sock, stored);
      var min := MinFront(pushed, stored.timestamp);
      var frames := DecodedDue(pushed, min, decode);
      var recipients := Recipients(d, v.channel);
      var sends := if frames == [] then [] else Broadcasts(recipients, sock, MixFrame(v.channel, Mix(frames, FRAME_SAMPLES)));
      var closed := if frames == [] then NothingClosed else ClosedAfter(recipients, sock);
      PopDueValid(pushed, min);
      RoundResult(Round(v.channel, sends, closed), PopDue(pushed, min), recipients)
  }

  lemma {:induction false} OtherThanAppend(a: seq<int>, x: int, sender: int)
    ensures OtherThan(a + [x], sender) == OtherThan(a, sender) + (if x == sender then [] else [x])
    decreases |a|
  {
    if a == [] {
      assert [x][1..] == [];
    } else {
      assert (a + [x])[1..] == a[1..] + [x];
      OtherThanAppend(a[1..], x, sender);
    }
  }

  lemma BroadcastsStep(sockets: seq<int>, i: nat, sender: int, f: Frame)
    requires i < |sockets|
    ensures Broadcasts(sockets[..i + 1], sender, f) ==
      Broadcasts(sockets[..i], sender, f) + (if sockets[i] == sender then [] else [(sockets[i], f)])
  {
    assert sockets[..i + 1] == sockets[..i] + [sockets[i]];
    OtherThanAppend(sockets[..i], sockets[i], sender);
  }

  // ---------------------------------------------------------------- the socket broadcast_audio closes

  /**
   * The socket a broadcast closes is one that must hear every broadcast of
   * the channel: a member's mapped socket other than the sender's.
   */
  lemma ClosedIsAListener(d: Disk, channel: string, sock: int)
    requires OtherThan(Recipients(d, channel), sock) != []
    ensures var c := ClosedAfter(Recipients(d, channel), sock);
      var m := SocketMap(SocketEntries(Users(d.users)));
      c.LastRecipient? && c.socket != sock
      && exists id :: id in TokenSet(MembersOf(d, channel)) && id in m && m[id] == c.socket
  {
    var m := SocketMap(SocketEntries(Users(d.users)));
    var c := ClosedAfter(Recipients(d, channel), sock);
    SocketsOfMembers(MemberOrder(MembersOf(d, channel)), m, c.socket);
  }

  /** The sends that reach a socket still open; a send to a closed socket fails. */
  function Delivered(open: set<int>, sends: seq<(int, Frame)>): (r: seq<(int, Frame)>)
    ensures forall k :: 0 <= k < |r| ==> r[k] in sends && r[k].0 in open
    ensures (forall k :: 0 <= k < |sends| ==> sends[k].0 in open) ==> r == sends
    decreases |sends|
  {
    if sends == [] then []
    else (if sends[0].0 in open then [sends[0]] else []) + Delivered(open, sends[1..])
  }

  /**
   * Consecutive rounds that broadcast the frames to the same listed sockets,
   * open holding the sockets not yet closed. With closing, as broadcast_audio
   * is written, each round then closes the socket ClosedAfter names; without
   * it, as intended, nothing is closed. The indeterminate close is not applied.
   */
  function Rounds(open: set<int>, sockets: seq<int>, sender: int, frames: seq<Frame>, closing: bool): seq<(int, Frame)>
    decreases |frames|
  {
    if frames == [] then []
    else
      var c := ClosedAfter(sockets, sender);
      var next := if closing && c.LastRecipient? then open - {c.socket} else open;
      Delivered(open, Broadcasts(sockets, sender, frames[0])) + Rounds(next, sockets, sender, frames[1..], closing)
  }

  /** A closed socket hears nothing in any later round. */
  lemma {:induction false} ClosedHearsNothing(open: set<int>, sockets: seq<int>, sender: int, frames: seq<Frame>, closing: bool, s: int)
    requires s !in open
    ensures forall p :: p in Rounds(open, sockets, sender, frames, closing) ==> p.0 != s
    decreases |frames|
  {
    if frames != [] {
      var c := ClosedAfter(sockets, sender);
      var next := if closing && c.LastRecipient? then open - {c.socket} else open;
      var first := Delivered(open, Broadcasts(sockets, sender, frames[0]));
      var rest := Rounds(next, sockets, sender, frames[1..], closing);
      ClosedHearsNothing(next, sockets, sender, frames[1..], closing, s);
      assert Rounds(open, sockets, sender, frames, closing) == first + rest;
    }
  }

  /**
   * As written: the socket the first round closes hears that round's frame
   * and no other, however many rounds follow.
   */
  lemma AsWrittenListenerHearsOnce(open: set<int>, sockets: seq<int>, sender: int, frames: seq<Frame>)
    requires OtherThan(sockets, sender) != [] && frames != []
    ensures var c := ClosedAfter(sockets, sender);
      c.LastRecipient? && forall p :: p in Rounds(open, sockets, sender, frames, true) && p.0 == c.socket ==> p.1 == frames[0]
  {
    var c := ClosedAfter(sockets, sender);
    var b := Broadcasts(sockets, sender, frames[0]);
    var first := Delivered(open, b);
    var rest := Rounds(open - {c.socket}, sockets, sender, frames[1..], true);
    ClosedHearsNothing(open - {c.socket}, sockets, sender, frames[1..], true, c.socket);
    assert Rounds(open, sockets, sender, frames, true) == first + rest;
    forall p | p in first
      ensures p.1 == frames[0]
    {
      var j :| 0 <= j < |b| && b[j] == p;
    }
  }

  /** Two rounds to a sender on socket 4 and one listener on socket 5: the listener misses the second mix. */
  lemma SecondMixUnheard(f1: Frame, f2: Frame)
    ensures Rounds({4, 5}, [4, 5], 4, [f1, f2], true) == [(5, f1)]
    ensures Rounds({4, 5}, [4, 5], 4, [f1, f2], false) == [(5, f1), (5, f2)]
  {
    ListenerRound({4, 5}, f1);
    ListenerRound({4, 5}, f2);
    ListenerRound({4}, f2);
    assert [f1, f2] == [f1] + [f2] && [f2] == [f2] + [];
    assert ({4, 5} - {5}) == {4};
    RoundsStep({4, 5}, [4, 5], 4, f1, [f2], true);
    RoundsStep({4}, [4, 5], 4, f2, [], true);
    RoundsStep({4, 5}, [4, 5], 4, f1, [f2], false);
    RoundsStep({4, 5}, [4, 5], 4, f2, [], false);
  }

  /** The first of several rounds, then the rest from the sockets it leaves open. */
  lemma RoundsStep(open: set<int>, sockets: seq<int>, sender: int, f: Frame, rest: seq<Frame>, closing: bool)
    ensures var c := ClosedAfter(sockets, sender);
      Rounds(open, sockets, sender, [f] + rest, closing) ==
        Delivered(open, Broadcasts(sockets, sender, f)) +
        Rounds(if closing && c.LastRecipient? then open - {c.socket} else open, sockets, sender, rest, closing)
  {
    assert ([f] + rest)[1..] == rest;
  }

  /** One round from socket 4 to socket 5, delivered iff socket 5 is open. */
  lemma ListenerRound(open: set<int>, f: Frame)
    ensures ClosedAfter([4, 5], 4) == LastRecipient(5)
    ensures Delivered(open, Broadcasts([4, 5], 4, f)) == if 5 in open then [(5, f)] else []
  {
    assert OtherThan([4, 5], 4) == [5] by {
      assert [4, 5][1..] == [5];
      assert [5][1..] == [];
    }
    assert Broadcasts([4, 5], 4, f) == [(5, f)];
    assert [(5, f)][1..] == [];
  }

  /**
   * Intended: with nothing closed, a listed socket other than the sender's
   * that is open hears every frame of every round.
   */
  lemma {:induction false} IntendedListenerHearsAll(open: set<int>, sockets: seq<int>, sender: int, frames: seq<Frame>, s: int)
    requires s in sockets && s != sender && s in open
    ensures var r := Rounds(open, sockets, sender, frames, false);
      forall i :: 0 <= i < |frames| ==> (s, frames[i]) in r
    decreases |frames|
  {
    if frames != [] {
      var b := Broadcasts(sockets, sender, frames[0]);
      var first := Delivered(open, b);
      IntendedListenerHearsAll(open, sockets, sender, frames[1..], s);
      OtherThanMembers(sockets, sender, s);
      var k :| 0 <= k < |OtherThan(sockets, sender)| && OtherThan(sockets, sender)[k] == s;
      assert b[k] == (s, frames[0]);
      DeliveredKeeps(open, b, k);
      var r := Rounds(open, sockets, sender, frames, false);
      assert r == first + Rounds(open, sockets, sender, frames[1..], false);
      forall i | 0 <= i < |frames|
        ensures (s, frames[i]) in r
      {
        if i > 0 {
          assert frames[i] == frames[1..][i - 1];
        }
      }
    }
  }

  /** A send to an open socket is delivered. */
  lemma {:induction false} DeliveredKeeps(open: set<int>, sends: seq<(int, Frame)>, k: nat)
    requires k < |sends| && sends[k].0 in open
    ensures sends[k] in Delivered(open, sends)
    decreases k
  {
    if k > 0 {
      DeliveredKeeps(open, sends[1..], k - 1);
    }
  }

  // ---------------------------------------------------------------- properties of a round

  /**
   * Who hears a broadcast: a socket receives the frame iff it is not the
   * sender's and it is the parsable socket of a member of the channel; every
   * entry carries the one frame.
   */
  lemma RecipientsHear(d: Disk, channel: string, sock: int, f: Frame, s: int)
    ensures var sends := Broadcasts(Recipients(d, channel), sock, f);
      var m := SocketMap(SocketEntries(Users(d.users)));
      ((exists k :: 0 <= k < |sends| && sends[k].0 == s) <==>
         s != sock && exists id :: id in TokenSet(MembersOf(d, channel)) && id in m && m[id] == s)
      && forall k :: 0 <= k < |sends| ==> sends[k].1 == f
  {
    var m := SocketMap(SocketEntries(Users(d.users)));
    var members := MemberOrder(MembersOf(d, channel));
    var listed := SocketsOf(members, m);
    assert Recipients(d, channel) == listed;
    SocketsOfMembers(members, m, s);
    OtherThanMembers(listed, sock, s);
    var sends := Broadcasts(listed, sock, f);
    if s in OtherThan(listed, sock) {
      var k :| 0 <= k < |OtherThan(listed, sock)| && OtherThan(listed, sock)[k] == s;
      assert sends[k].0 == s;
    }
  }

  /**
   * The server never stamps the packets it queues (the message's audio packet
   * keeps timestamp 0), so min_timestamp is 0 and every non-empty buffer is due
   * in every round: each round pops the front of every queue.
   */
  lemma UnstampedAllDue(bufs: Buffers, m: int)
    requires m == 0 && forall i :: 0 <= i < |bufs| ==> ValidQueue(bufs[i].queue)
    requires forall i, k :: 0 <= i < |bufs| && 0 <= k < |bufs[i].queue| ==> bufs[i].queue[k].timestamp == 0
    ensures MinFront(bufs, m) == 0
    ensures forall i :: 0 <= i < |bufs| && bufs[i].queue != [] ==> Due(bufs[i].queue, MinFront(bufs, m))
  {
    MinFrontBound(bufs, m);
  }

  /** The packet of the round joins the back of the sender's queue, and no other socket's. */
  lemma RoundQueuesPacket(bufs: Buffers, sock: int, packet: AudioPacket, opus: seq<Byte>, t: int)
    requires ValidBuffers(bufs) && packet.Valid() && |opus| <= OPUS_MAX_PACKET_SIZE
    ensures Queue(Pushed(bufs, sock, Parsers.StorePayload(packet, opus)), t) ==
      if t == sock then Queue(bufs, sock) + [Parsers.StorePayload(packet, opus)] else Queue(bufs, t)
  {
    PushedQueue(bufs, sock, Parsers.StorePayload(packet, opus), t);
  }

  // ---------------------------------------------------------------- decoded_buffers as written

  /**
   * The VOICE branch pushes decoded_data, an array local to the loop body,
   * into decoded_buffers: every entry is the address of that one array, whose
   * lifetime has ended when the mix reads it. Taking the storage to hold the
   * last frame decoded, the mix sees that frame once per decoded buffer.
   */
  function AliasedFrames(frames: seq<Pcm>): (r: seq<Pcm>)
    ensures |r| == |frames|
    ensures forall k :: 0 <= k < |r| ==> r[k] == frames[|frames| - 1]
  {
    seq(|frames|, k requires 0 <= k < |frames| => frames[|frames| - 1])
  }

  /** Two speakers, one loud and one silent: the intended mix is the loud frame, the aliased one is silence. */
  lemma AliasedMixLosesSpeaker()
    ensures var loud: Pcm := seq(FRAME_SAMPLES, _ => 1000);
      var quiet: Pcm := seq(FRAME_SAMPLES, _ => 0);
      Mix([loud, quiet], FRAME_SAMPLES)[0] == 1000 && Mix(AliasedFrames([loud, quiet]), FRAME_SAMPLES)[0] == 0
  {
    var loud: Pcm := seq(FRAME_SAMPLES, _ => 1000);
    var quiet: Pcm := seq(FRAME_SAMPLES, _ => 0);
    assert [loud, quiet][..1] == [loud];
    assert [loud][..0] == [];
    assert loud[0] == 1000 && quiet[0] == 0;
    assert SumAt([loud], 0) == 1000;
    assert SumAt([loud, quiet], 0) == 1000;
    var al := AliasedFrames([loud, quiet]);
    assert al == [quiet, quiet];
    assert al[..1] == [quiet];
    assert [quiet][..0] == [];
    assert SumAt([quiet], 0) == 0;
    assert SumAt(al, 0) == 0;
  }

  /** The intended mix: each decoded frame counts once, so a second speaker adds to the first, sample by sample. */
  lemma MixAddsSpeaker(frames: seq<Pcm>, f: Pcm, i: nat)
    requires i < FRAME_SAMPLES
    ensures SumAt(frames + [f], i) == SumAt(frames, i) + f[i]
    ensures Mix(frames + [f], FRAME_SAMPLES)[i] == Clamp16(SumAt(frames, i) + f[i])
  {
    assert (frames + [f])[..|frames|] == frames;
  }
}
