/**
 The HCI packet dump: packets and their frames, files whose reads and writes may be partial,
 interrupted or fail, and the two loops that transfer a given number of bytes.
 */
module HciDump {
  import opened Products

  type byte = b: int | 0 <= b < 256

  type pos = n: int | n > 0 witness 1

  /** The maximum HCI frame of the BlueZ header: 1024 bytes of ACL data and 4 of header. */
  const HCI_MAX_FRAME_SIZE: nat := 1028
  const HEADER_SIZE: nat := 11
  const U16: nat := 0x1_0000
  const U32: nat := 0x1_0000_0000

  datatype Packet = Packet(data: seq<byte>, incoming: byte, sec: int, usec: int)

  datatype Header = Header(length: nat, incoming: byte, sec: nat, usec: nat)

  datatype Trace = Trace(dataLen: nat, incoming: byte, sec: nat, usec: nat, data: seq<byte>)

  // ---------- little-endian fields ----------

  function Power256(k: nat): (p: nat)
    ensures p > 0
  {
    if k == 0 then 1 else 256 * Power256(k - 1)
  }

  function Le(n: nat, k: nat): (s: seq<byte>)
    ensures |s| == k
    decreases k
  {
    if k == 0 then [] else [n % 256] + Le(n / 256, k - 1)
  }

  function FromLe(s: seq<byte>): nat { if s == [] then 0 else s[0] + 256 * FromLe(s[1..]) }

  lemma {:induction false} LeRoundTrip(n: nat, k: nat)
    requires n < Power256(k)
    ensures FromLe(Le(n, k)) == n
    decreases k
  {
    if k > 0 {
      LeRoundTrip(n / 256, k - 1);
      assert Le(n, k)[1..] == Le(n / 256, k - 1);
    }
  }

  function HeaderBytes(h: Header): (s: seq<byte>)
    ensures |s| == HEADER_SIZE
  {
    Le(h.length, 2) + [h.incoming] + Le(h.sec, 4) + Le(h.usec, 4)
  }

  function ParseHeader(s: seq<byte>): (h: Header)
    requires |s| == HEADER_SIZE
  {
    Header(FromLe(s[0..2]), s[2], FromLe(s[3..7]), FromLe(s[7..11]))
  }

  lemma HeaderRoundTrip(h: Header)
    requires h.length < U16 && h.sec < U32 && h.usec < U32
    ensures ParseHeader(HeaderBytes(h)) == h
  {
    var s := HeaderBytes(h);
    assert s[0..2] == Le(h.length, 2) && s[3..7] == Le(h.sec, 4) && s[7..11] == Le(h.usec, 4);
    assert Power256(2) == U16 && Power256(4) == 256 * (256 * Power256(2)) == U32;
    LeRoundTrip(h.length, 2);
    LeRoundTrip(h.sec, 4);
    LeRoundTrip(h.usec, 4);
  }

  /** The header's layout: length, direction, seconds and microseconds, least significant bytes first. */
  lemma HeaderLayout(h: Header)
    ensures var s := HeaderBytes(h);
      && s[0] == h.length % 256 && s[1] == h.length / 256 % 256 && s[2] == h.incoming
      && (forall i :: 0 <= i < 4 ==> s[3 + i] == h.sec / Power256(i) % 256 && s[7 + i] == h.usec / Power256(i) % 256)
  {
    var s := HeaderBytes(h);
    LeAt(h.length, 2, 0);
    LeAt(h.length, 2, 1);
    forall i | 0 <= i < 4 ensures s[3 + i] == h.sec / Power256(i) % 256 && s[7 + i] == h.usec / Power256(i) % 256 {
      LeAt(h.sec, 4, i);
      LeAt(h.usec, 4, i);
      assert s[3 + i] == Le(h.sec, 4)[i] && s[7 + i] == Le(h.usec, 4)[i];
    }
  }

  lemma {:induction false} LeAt(n: nat, k: nat, i: nat)
    requires i < k
    ensures Power256(i) > 0 && Le(n, k)[i] == n / Power256(i) % 256
    decreases k
  {
    if i > 0 {
      LeAt(n / 256, k - 1, i - 1);
      assert Le(n, k)[1..] == Le(n / 256, k - 1);
      DivideTwice(n, Power256(i - 1));
    }
  }

  lemma DivideTwice(n: nat, b: nat)
    requires b > 0
    ensures n / 256 / b == n / (256 * b)
  {
    hide Times;
    var m := n / 256;
    DivideBack(m, b);
    TimesScales(b, m / b);
    DivideUnique(256 * (m % b) + n % 256, m / b, 256 * b);
  }

  lemma TimesScales(b: nat, q: nat)
    ensures Times(256 * b, q) == 256 * Times(b, q)
  {
  }

  /** Header fields are narrower than what is put in them. */
  function HeaderOf(p: Packet): Header { Header(|p.data| % U16, p.incoming, p.sec % U32, p.usec % U32) }

  function Encode(p: Packet): (s: seq<byte>) { HeaderBytes(HeaderOf(p)) + p.data }

  function EncodeAll(ps: seq<Packet>): (s: seq<byte>) {
    if ps == [] then [] else Encode(ps[0]) + EncodeAll(ps[1..])
  }

  predicate Framed(ps: seq<Packet>) { forall i :: 0 <= i < |ps| ==> 1 <= |ps[i].data| <= HCI_MAX_FRAME_SIZE }

  // ---------- transfers in pieces ----------

  /** What one read or write call does: interrupted, fails, transfers nothing, or at most `n` bytes. */
  datatype Event = Again | Fail | Nothing | Move(n: pos)

  datatype Outcome = Outcome(moved: nat, rest: seq<Event>, failed: bool)

  function Min(a: int, b: int): int { if a < b then a else b }

  datatype SysResult = Count(n: nat) | Interrupted | Error

  /** What the next call returns when it could move `limit` bytes. */
  function Next(script: seq<Event>, limit: nat): (r: SysResult)
    ensures r.Count? ==> r.n <= limit
    ensures r.Interrupted? ==> script != []
  {
    if script == [] then Count(limit)
    else match script[0]
      case Again => Interrupted
      case Fail => Error
      case Nothing => Count(0)
      case Move(n) => Count(Min(n, limit))
  }

  function Later(script: seq<Event>): (rest: seq<Event>)
    ensures script != [] ==> |rest| < |script|
    ensures script == [] ==> rest == []
  {
    if script == [] then [] else script[1..]
  }

  /** A loop transferring `len` bytes where `avail` can be had; past the script, calls do all they can. */
  function Transfer(script: seq<Event>, avail: nat, len: nat): (o: Outcome)
    ensures o.moved <= len && o.moved <= avail
    decreases |script| + len
  {
    if len == 0 then Outcome(0, script, false)
    else match Next(script, Min(avail, len))
      case Interrupted => Transfer(Later(script), avail, len)
      case Error => Outcome(0, Later(script), true)
      case Count(n) =>
        if n == 0 then Outcome(0, Later(script), false)
        else
          var o := Transfer(Later(script), avail - n, len - n);
          Outcome(n + o.moved, o.rest, o.failed)
  }

  lemma TransferEnds(script: seq<Event>, avail: nat)
    ensures Transfer(script, avail, 0) == Outcome(0, script, false)
  {
  }

  /** A transfer is its next call followed by the transfer of what is left. */
  lemma TransferSteps(script: seq<Event>, avail: nat, len: nat)
    requires len > 0
    ensures match Next(script, Min(avail, len))
      case Interrupted => Transfer(script, avail, len) == Transfer(Later(script), avail, len)
      case Error => Transfer(script, avail, len) == Outcome(0, Later(script), true)
      case Count(n) =>
        var o := Transfer(Later(script), avail - n, len - n);
        Transfer(script, avail, len)
        == if n == 0 then Outcome(0, Later(script), false) else Outcome(n + o.moved, o.rest, o.failed)
  {
    hide Next, Later;
  }

  /** An interrupted call is repeated; one that fails, or moves nothing, ends the transfer there. */
  lemma EventsMean(rest: seq<Event>, avail: nat, len: nat, n: pos)
    requires len > 0
    ensures Transfer([Again] + rest, avail, len) == Transfer(rest, avail, len)
    ensures Transfer([Fail] + rest, avail, len) == Outcome(0, rest, true)
    ensures Transfer([Nothing] + rest, avail, len) == Outcome(0, rest, false)
    ensures n <= avail && n <= len ==>
              Transfer([Move(n)] + rest, avail, len).moved == n + Transfer(rest, avail - n, len - n).moved
  {
    hide Transfer;
    TransferSteps([Again] + rest, avail, len);
    TransferSteps([Fail] + rest, avail, len);
    TransferSteps([Nothing] + rest, avail, len);
    TransferSteps([Move(n)] + rest, avail, len);
    assert Later([Again] + rest) == Later([Fail] + rest) == Later([Nothing] + rest) == Later([Move(n)] + rest) == rest;
  }

  predicate NeverNothing(script: seq<Event>) { forall i :: 0 <= i < |script| ==> !script[i].Nothing? }

  predicate NeverFails(script: seq<Event>) { forall i :: 0 <= i < |script| ==> !script[i].Fail? }

  /** Interruptions and short transfers only delay: all that is available is moved unless a call fails. */
  lemma {:induction false} TransferCompletes(script: seq<Event>, avail: nat, len: nat)
    requires NeverNothing(script)
    ensures var o := Transfer(script, avail, len);
      NeverNothing(o.rest) && (NeverFails(script) ==> !o.failed && NeverFails(o.rest))
      && (!o.failed ==> o.moved == Min(avail, len))
    decreases |script| + len
  {
    if len > 0 {
      match Next(script, Min(avail, len))
      case Interrupted => TransferCompletes(Later(script), avail, len);
      case Error =>
      case Count(n) => if n > 0 { TransferCompletes(Later(script), avail - n, len - n); }
    }
  }

  /** `s` with `t` written over it from index `off` on. */
  function Overwritten(s: seq<byte>, off: nat, t: seq<byte>): (r: seq<byte>)
    requires off + |t| <= |s|
    ensures |r| == |s|
  {
    s[..off] + t + s[off + |t|..]
  }

  /** An open file; `script` decides how the next calls on it behave. */
  class File {
    var content: seq<byte>
    var at: nat
    var script: seq<Event>

    constructor (content: seq<byte>, script: seq<Event>)
      ensures this.content == content && at == 0 && this.script == script
    {
      this.content, at, this.script := content, 0, script;
    }

    method Consume(limit: nat) returns (r: SysResult)
      modifies `script
      ensures r == Next(old(script), limit) && script == Later(old(script))
    {
      if script == [] { return Count(limit); }
      var e := script[0];
      script := script[1..];
      match e
      case Again => r := Interrupted;
      case Fail => r := Error;
      case Nothing => r := Count(0);
      case Move(n) => r := Count(Min(n, limit));
    }

    method Write(data: seq<byte>) returns (r: SysResult)
      modifies this
      ensures r == Next(old(script), |data|) && script == Later(old(script)) && at == old(at)
      ensures content == old(content) + if r.Count? then data[..r.n] else []
    {
      r := Consume(|data|);
      if r.Count? { content := content + data[..r.n]; }
    }

    method Read(buf: array<byte>, off: nat, len: nat) returns (r: SysResult)
      requires at <= |content| && off + len <= buf.Length
      modifies this, buf
      ensures r == Next(old(script), Min(|old(content)| - old(at), len)) && script == Later(old(script))
      ensures content == old(content) && at == old(at) + if r.Count? then r.n else 0
      ensures at <= |content|
      ensures r.Count? ==> r.n <= len
      ensures buf[..] == Overwritten(old(buf[..]), off, content[old(at)..at])
    {
      hide Next, Later;
      r := Consume(Min(|content| - at, len));
      if r.Count? {
        var start, m := at, r.n;
        forall k | off <= k < off + m { buf[k] := content[start + k - off]; }
        at := at + m;
      }
    }
  }

  /** Logs one packet: 1 when the loop ended without an error, even after a write that wrote nothing. */
  method WritePacket(log: File, packet: Packet) returns (r: int)
    requires |packet.data| <= HCI_MAX_FRAME_SIZE
    modifies log
    ensures var frame := Encode(packet);
      var o := Transfer(old(log.script), |frame|, |frame|);
      log.content == old(log.content) + frame[..o.moved] && log.script == o.rest && r == if o.failed then -1 else 1
    ensures log.at == old(log.at)
  {
    hide Encode, Next, Later, Transfer;
    var frame := Encode(packet);
    var len: nat := |frame|;
    ghost var o := Transfer(log.script, len, len);
    ghost var sent: nat := 0;
    ghost var start := log.content;
    assert frame[..0] == [];
    while len > 0
      invariant sent + len == |frame| && log.at == old(log.at)
      invariant log.content == start + frame[..sent]
      invariant var p := Transfer(log.script, len, len); o == Outcome(sent + p.moved, p.rest, p.failed)
      decreases |log.script| + len
    {
      TransferSteps(log.script, len, len);
      var written := log.Write(frame[|frame| - len..]);
      match written
      case Interrupted =>
      case Error => return -1;
      case Count(n) =>
        assert frame[sent..][..n] == frame[sent..sent + n];
        assert frame[..sent + n] == frame[..sent] + frame[sent..sent + n];
        if n == 0 { return 1; }
        len := len - n;
        sent := sent + n;
    }
    TransferEnds(log.script, 0);
    r := 1;
  }

  /** Reads `len` bytes into the front of `buf`: `len` if all came, 0 at the end of the file even part-way, else -1. */
  method ReadDump(file: File, buf: array<byte>, len: nat) returns (r: int)
    requires file.at <= |file.content| && len <= buf.Length
    modifies file, buf
    ensures file.content == old(file.content) && old(file.at) <= file.at <= |file.content|
    ensures var o := Transfer(old(file.script), |file.content| - old(file.at), len);
      file.at == old(file.at) + o.moved && file.script == o.rest
      && buf[..] == Overwritten(old(buf[..]), 0, file.content[old(file.at)..file.at])
      && r == if o.failed then -1 else if o.moved < len then 0 else len
  {
    hide Next, Later, Transfer, Overwritten;
    ghost var start, avail := file.at, |file.content| - file.at;
    ghost var before, content := buf[..], file.content;
    ghost var o := Transfer(file.script, avail, len);
    var left: nat := len;
    r := 0;
    OverwrittenNowhere(before, content, start);
    while left > 0
      invariant r + left == len && 0 <= r <= avail
      invariant file.content == content && file.at == start + r
      invariant buf[..] == Overwritten(before, 0, content[start..start + r])
      invariant var p := Transfer(file.script, avail - r, left); o == Outcome(r + p.moved, p.rest, p.failed)
      decreases |file.script| + left
    {
      TransferSteps(file.script, avail - r, left);
      var n_read := file.Read(buf, r, left);
      OverwrittenFurther(before, content, start, r, file.at - start - r);
      match n_read
      case Interrupted =>
      case Error => return -1;
      case Count(n) =>
        if n == 0 { return 0; }
        left := left - n;
        r := r + n;
    }
    TransferEnds(file.script, avail - r);
  }

  lemma OverwrittenNowhere(before: seq<byte>, content: seq<byte>, start: nat)
    requires start <= |content|
    ensures Overwritten(before, 0, content[start..start]) == before
  {
  }

  lemma OverwrittenFurther(before: seq<byte>, content: seq<byte>, start: nat, r: nat, n: nat)
    requires r + n <= |before| && start + r + n <= |content|
    ensures Overwritten(Overwritten(before, 0, content[start..start + r]), r, content[start + r..start + r + n])
            == Overwritten(before, 0, content[start..start + r + n])
  {
  }
}
