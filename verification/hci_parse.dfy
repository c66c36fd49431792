/**
 Parsing a dump back into callbacks, and the round trip through a log written in pieces.
 */
module HciParse {
  import opened HciDump

  // ---------- what the handler is to be called with ----------

  function Zeros(n: nat): (s: seq<byte>)
    ensures |s| == n
  {
    seq(n, _ => 0)
  }

  /** The callback for a packet: the frame buffer is zero behind the packet's bytes. */
  function TraceOf(p: Packet): Trace
    requires |p.data| <= HCI_MAX_FRAME_SIZE
  {
    Trace(|p.data|, p.incoming, p.sec % U32, p.usec % U32, p.data + Zeros(HCI_MAX_FRAME_SIZE - |p.data|))
  }

  function Traces(ps: seq<Packet>): (ts: seq<Trace>)
    requires Framed(ps)
  {
    seq(|ps|, i requires 0 <= i < |ps| => TraceOf(ps[i]))
  }

  /** One callback more than packets: at the end of the file the last header is delivered again, with no bytes. */
  function Deliveries(ps: seq<Packet>): (ts: seq<Trace>)
    requires Framed(ps) && ps != []
  {
    Traces(ps) + [TraceOf(ps[|ps| - 1]).(data := Zeros(HCI_MAX_FRAME_SIZE))]
  }

  /** The handler's state after a run of callbacks. */
  function Fold<S>(handler: (S, Trace) -> (S, int), s: S, ts: seq<Trace>): S {
    if ts == [] then s else handler(Fold(handler, s, ts[..|ts| - 1]), ts[|ts| - 1]).0
  }

  /** The handler returned zero every time. */
  predicate Accepts<S>(handler: (S, Trace) -> (S, int), s: S, ts: seq<Trace>) {
    ts == [] || (Accepts(handler, s, ts[..|ts| - 1]) && handler(Fold(handler, s, ts[..|ts| - 1]), ts[|ts| - 1]).1 == 0)
  }

  /** The handler objected to the last callback and to none before. */
  predicate JustRefused<S>(handler: (S, Trace) -> (S, int), s: S, ts: seq<Trace>) {
    ts != [] && Accepts(handler, s, ts[..|ts| - 1]) && !Accepts(handler, s, ts)
  }

  lemma {:induction false} AcceptsPrefix<S>(handler: (S, Trace) -> (S, int), s: S, ts: seq<Trace>, k: nat)
    requires Accepts(handler, s, ts) && k <= |ts|
    ensures Accepts(handler, s, ts[..k])
    decreases |ts|
  {
    if k < |ts| {
      AcceptsPrefix(handler, s, ts[..|ts| - 1], k);
      assert ts[..|ts| - 1][..k] == ts[..k];
    } else {
      assert ts[..k] == ts;
    }
  }

  lemma FoldStep<S>(handler: (S, Trace) -> (S, int), s: S, ts: seq<Trace>, t: Trace)
    ensures Fold(handler, s, ts + [t]) == handler(Fold(handler, s, ts), t).0
    ensures Accepts(handler, s, ts + [t]) <==> Accepts(handler, s, ts) && handler(Fold(handler, s, ts), t).1 == 0
  {
    assert (ts + [t])[..|ts|] == ts;
  }

  // ---------- parsing ----------

  /** What a frame's header says. */
  function Announces(p: Packet): Header { Header(|p.data|, p.incoming, p.sec % U32, p.usec % U32) }

  lemma ThreeParts(s: seq<byte>, a: seq<byte>, b: seq<byte>, c: seq<byte>)
    requires s == a + b + c
    ensures s[..|a|] == a && s[|a|..|a| + |b|] == b && s[|a| + |b|..] == c
  {
  }

  lemma FirstFrame(ps: seq<Packet>)
    requires Framed(ps) && ps != []
    ensures var p, s := ps[0], EncodeAll(ps);
      |s| >= HEADER_SIZE + |p.data| && ParseHeader(s[..HEADER_SIZE]) == Announces(p)
      && s[HEADER_SIZE..HEADER_SIZE + |p.data|] == p.data && s[HEADER_SIZE + |p.data|..] == EncodeAll(ps[1..])
  {
    hide HeaderBytes, ParseHeader;
    var p, s := ps[0], EncodeAll(ps);
    HeaderRoundTrip(HeaderOf(p));
    ThreeParts(s, HeaderBytes(HeaderOf(p)), p.data, EncodeAll(ps[1..]));
  }

  /** Reads one header: the next packet's, or at the end of the file the one already there. */
  method ReadHeader(file: File, hdr: array<byte>, ghost ps: seq<Packet>) returns (r: int)
    requires Framed(ps) && file.at <= |file.content| && file.content[file.at..] == EncodeAll(ps)
    requires hdr.Length == HEADER_SIZE && NeverNothing(file.script)
    modifies file, hdr
    ensures file.content == old(file.content) && file.at <= |file.content| && NeverNothing(file.script)
    ensures NeverFails(old(file.script)) ==> r >= 0 && NeverFails(file.script)
    ensures r >= 0 && ps == [] ==> file.at == old(file.at) && hdr[..] == old(hdr[..])
    ensures r >= 0 && ps != [] ==> file.at == old(file.at) + HEADER_SIZE && ParseHeader(hdr[..]) == Announces(ps[0])
  {
    hide HeaderBytes, ParseHeader, Transfer;
    ghost var start, content := file.at, file.content;
    TransferCompletes(file.script, |content| - start, HEADER_SIZE);
    if ps != [] { FirstFrame(ps); assert content[start..][..HEADER_SIZE] == content[start..start + HEADER_SIZE]; }
    r := ReadDump(file, hdr, HEADER_SIZE);
    if r >= 0 && ps != [] { assert hdr[..] == content[start..start + HEADER_SIZE]; }
  }

  /** Reads `len` bytes over a cleared buffer: the packet's bytes, or none at the end of the file. */
  method ReadData(file: File, buffer: array<byte>, len: nat, ghost data: seq<byte>) returns (r: int)
    requires file.at <= |file.content| && 1 <= len <= HCI_MAX_FRAME_SIZE == buffer.Length
    requires data <= file.content[file.at..] && (|data| == len || (data == [] && file.at == |file.content|))
    requires NeverNothing(file.script)
    modifies file, buffer
    ensures file.content == old(file.content) && file.at <= |file.content| && NeverNothing(file.script)
    ensures NeverFails(old(file.script)) ==> r >= 0 && NeverFails(file.script)
    ensures r >= 0 ==> r == |data| && file.at == old(file.at) + |data|
    ensures r >= 0 ==> buffer[..] == data + Zeros(HCI_MAX_FRAME_SIZE - |data|)
  {
    hide Transfer;
    ghost var start, content := file.at, file.content;
    forall k | 0 <= k < buffer.Length { buffer[k] := 0; }
    assert buffer[..] == Zeros(HCI_MAX_FRAME_SIZE);
    TransferCompletes(file.script, |content| - start, len);
    assert content[start..start + |data|] == content[start..][..|data|] == data;
    r := ReadDump(file, buffer, len);
  }

  /** The file is at the k-th frame, and the header read last is the one before. */
  ghost predicate AtFrame(file: File, hdr: array<byte>, ps: seq<Packet>, k: nat)
    reads file, hdr
  {
    k <= |ps| && Framed(ps) && hdr.Length == HEADER_SIZE && NeverNothing(file.script)
    && file.at <= |file.content| && file.content[file.at..] == EncodeAll(ps[k..])
    && (k > 0 ==> ParseHeader(hdr[..]) == Announces(ps[k - 1]))
  }

  /** One turn of the parse loop up to the callback: the k-th delivery is ready. */
  method ReadTrace(file: File, hdr: array<byte>, buffer: array<byte>, ghost ps: seq<Packet>, ghost k: nat)
    returns (r: int, trace: Trace)
    requires AtFrame(file, hdr, ps, k) && ps != [] && buffer.Length == HCI_MAX_FRAME_SIZE && hdr != buffer
    modifies file, hdr, buffer
    ensures NeverFails(old(file.script)) ==> r >= 0 && NeverFails(file.script)
    ensures r >= 0 ==> trace == Deliveries(ps)[k] && (r == 0 <==> k == |ps|)
    ensures r > 0 ==> AtFrame(file, hdr, ps, k + 1)
  {
    hide HeaderBytes, ParseHeader, EncodeAll, NeverNothing, NeverFails, Deliveries;
    ghost var n, at := |ps|, file.at;
    trace := Trace(0, 0, 0, 0, []);
    DeliveryAt(ps, k);
    r := ReadHeader(file, hdr, ps[k..]);
    if r < 0 { return -1, trace; }
    ghost var p := if k < n then ps[k] else ps[n - 1];
    ghost var data := if k < n then p.data else [];
    var h := ParseHeader(hdr[..]);
    assert h == Announces(p);
    NextFrame(file.content, at, file.at, ps, k);
    r := ReadData(file, buffer, h.length, data);
    trace := Trace(h.length, h.incoming, h.sec, h.usec, buffer[..]);
  }

  method ParseHcidump<S>(file: File, handler: (S, Trace) -> (S, int), init: S, ghost ps: seq<Packet>)
    returns (ret: int, s: S, ghost calls: seq<Trace>)
    requires Framed(ps) && ps != [] && file.at == 0 && file.content == EncodeAll(ps)
    requires NeverNothing(file.script)
    modifies file
    ensures calls <= Deliveries(ps) && s == Fold(handler, init, calls)
    ensures ret == 0 || ret == -1
    ensures ret == 0 ==> calls == Deliveries(ps)
    ensures NeverFails(old(file.script)) ==> (ret == 0 <==> Accepts(handler, init, Deliveries(ps)))
    ensures NeverFails(old(file.script)) && ret != 0 ==> JustRefused(handler, init, calls)
  {
    hide HeaderBytes, ParseHeader, EncodeAll, Fold, Accepts, NeverFails, Deliveries;
    var hdr := new byte[HEADER_SIZE];
    var buffer := new byte[HCI_MAX_FRAME_SIZE];
    ghost var all, k, n := Deliveries(ps), 0, |ps|;
    s, calls := init, [];
    FoldOfNone(handler, init);
    DeliveryAt(ps, 0);
    assert ps[0..] == ps && file.content[0..] == file.content;
    var more := true;
    while more
      invariant 0 <= k <= n && (more ==> AtFrame(file, hdr, ps, k))
      invariant NeverFails(old(file.script)) ==> NeverFails(file.script)
      invariant calls == if more then all[..k] else all
      invariant s == Fold(handler, init, calls) && Accepts(handler, init, calls)
      decreases n - k, more
    {
      var trace;
      ret, trace := ReadTrace(file, hdr, buffer, ps, k);
      if ret < 0 { return -1, s, calls; }
      assert all[..k + 1] == all[..k] + [trace];
      FoldStep(handler, init, calls, trace);
      assert (calls + [trace])[..|calls|] == calls;
      calls := calls + [trace];
      var (next, abort) := handler(s, trace);
      s := next;
      if abort != 0 {
        if Accepts(handler, init, all) { AcceptsPrefix(handler, init, all, k + 1); }
        return -1, s, calls;
      }
      more := ret != 0;
      if more { k := k + 1; } else { assert all[..n + 1] == all; }
    }
    ret := 0;
  }

  lemma DeliveryAt(ps: seq<Packet>, k: nat)
    requires Framed(ps) && ps != [] && k <= |ps|
    ensures |Deliveries(ps)| == |ps| + 1
    ensures var p := if k < |ps| then ps[k] else ps[|ps| - 1];
      var data := if k < |ps| then p.data else [];
      Deliveries(ps)[k]
      == Trace(|p.data|, p.incoming, p.sec % U32, p.usec % U32, data + Zeros(HCI_MAX_FRAME_SIZE - |data|))
  {
    assert [] + Zeros(HCI_MAX_FRAME_SIZE) == Zeros(HCI_MAX_FRAME_SIZE);
  }

  lemma FoldOfNone<S>(handler: (S, Trace) -> (S, int), s: S)
    ensures Fold(handler, s, []) == s && Accepts(handler, s, [])
  {
  }

  /** Behind the k-th header come the packet's bytes and then the frames left; or it is the end of the file. */
  lemma NextFrame(content: seq<byte>, at: nat, behind: nat, ps: seq<Packet>, k: nat)
    requires Framed(ps) && k <= |ps| && at <= behind <= |content| && content[at..] == EncodeAll(ps[k..])
    requires behind == if k < |ps| then at + HEADER_SIZE else at
    ensures k == |ps| ==> behind == |content|
    ensures k < |ps| ==> behind + |ps[k].data| <= |content| && ps[k].data <= content[behind..]
    ensures k < |ps| ==> content[behind + |ps[k].data|..] == EncodeAll(ps[k + 1..])
  {
    hide HeaderBytes, ParseHeader;
    if k < |ps| {
      FirstFrame(ps[k..]);
      assert ps[k..][1..] == ps[k + 1..];
      assert content[at..][HEADER_SIZE..] == content[behind..];
      assert content[at..][HEADER_SIZE..HEADER_SIZE + |ps[k].data|] == content[behind..][..|ps[k].data|];
      assert content[at..][HEADER_SIZE + |ps[k].data|..] == content[behind + |ps[k].data|..];
    }
  }

  // ---------- the round trip ----------

  lemma {:induction false} EncodeAllAppend(ps: seq<Packet>, p: Packet)
    ensures EncodeAll(ps + [p]) == EncodeAll(ps) + Encode(p)
  {
    hide Encode;
    if ps == [] {
      assert [] + [p] == [p] && [p][1..] == [];
    } else {
      EncodeAllAppend(ps[1..], p);
      assert (ps + [p])[1..] == ps[1..] + [p];
    }
  }

  /** Logs packets until one fails. */
  method LogPackets(log: File, ps: seq<Packet>) returns (r: int)
    requires Framed(ps) && NeverNothing(log.script)
    modifies log
    ensures NeverFails(old(log.script)) ==> r == 1
    ensures r == 1 ==> log.content == old(log.content) + EncodeAll(ps)
  {
    hide Encode, Transfer, EncodeAll;
    EncodeAllNone();
    assert ps[..0] == [];
    for k := 0 to |ps|
      invariant NeverNothing(log.script) && (NeverFails(old(log.script)) ==> NeverFails(log.script))
      invariant log.content == old(log.content) + EncodeAll(ps[..k])
    {
      var len := |Encode(ps[k])|;
      TransferCompletes(log.script, len, len);
      EncodeAllAppend(ps[..k], ps[k]);
      assert ps[..k + 1] == ps[..k] + [ps[k]];
      assert Encode(ps[k])[..len] == Encode(ps[k]);
      r := WritePacket(log, ps[k]);
      if r < 0 { return -1; }
    }
    assert ps[..|ps|] == ps;
    r := 1;
  }

  lemma EncodeAllNone()
    ensures EncodeAll([]) == []
  {
  }

  /** However writes and reads are cut up and interrupted, the handler sees every packet in order, and one echo. */
  method LogThenParse<S>(ps: seq<Packet>, onWrite: seq<Event>, onRead: seq<Event>,
      handler: (S, Trace) -> (S, int), init: S)
    returns (ret: int, s: S)
    requires Framed(ps) && ps != []
    requires NeverNothing(onWrite) && NeverFails(onWrite) && NeverNothing(onRead) && NeverFails(onRead)
    requires Accepts(handler, init, Deliveries(ps))
    ensures ret == 0 && s == Fold(handler, init, Deliveries(ps))
  {
    var log := new File([], onWrite);
    var r := LogPackets(log, ps);
    var dump := new File(log.content, onRead);
    ghost var calls;
    ret, s, calls := ParseHcidump(dump, handler, init, ps);
  }
}
