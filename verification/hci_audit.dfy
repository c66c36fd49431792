/**
 Auditing a trace for an incoming connection: an automaton that steps through four events and
 otherwise stays put, shown to accept exactly when the events occur in this order.
 */
module HciAudit {
  import opened HciDump
  import opened HciParse
  import opened Subsequences

  type Pair = (byte, byte)

  /**
   First two bytes of the packets of a connection: packet type 4 with event code 0x04, Connection
   Request; the accept command; event 0x0f, Command Status; event 0x03, Connection Complete.
   */
  const SEQUENCE: seq<Pair> := [(0x04, 0x04), (0x01, 0x09), (0x04, 0x0f), (0x04, 0x03)]

  /** The counter that outlives the calls, and the caller's flag. */
  datatype Audit = Audit(next: nat, passed: bool)

  function Step(a: Audit, seen: Pair): (b: Audit) {
    if a.next < |SEQUENCE| && seen == SEQUENCE[a.next]
    then Audit(a.next + 1, a.passed || a.next + 1 == |SEQUENCE|)
    else a
  }

  class Auditor {
    var nextExpected: nat
    var auditPassed: bool

    constructor ()
      ensures nextExpected == 0 && !auditPassed
    {
      nextExpected, auditPassed := 0, false;
    }

    method AuditIncomingConnectionTrace(trace: Trace) returns (r: int)
      requires |trace.data| >= 2
      modifies this
      ensures Audit(nextExpected, auditPassed)
              == Step(old(Audit(nextExpected, auditPassed)), (trace.data[0], trace.data[1]))
      ensures r == 0
    {
      var steps := 4;
      if nextExpected >= steps { return 0; }
      if trace.data[0] == SEQUENCE[nextExpected].0 && trace.data[1] == SEQUENCE[nextExpected].1 {
        nextExpected := nextExpected + 1;
        if nextExpected == steps { auditPassed := true; }
      }
      r := 0;
    }
  }

  // ---------- the automaton against subsequences ----------

  function Run(a: Audit, text: seq<Pair>): (b: Audit)
    decreases |text|
  {
    if text == [] then a else Run(Step(a, text[0]), text[1..])
  }

  /** A completed automaton never passes anything again, whatever it is shown. */
  lemma {:induction false} CompletedIsStuck(a: Audit, text: seq<Pair>)
    requires a.next >= |SEQUENCE|
    ensures Run(a, text) == a
  {
    if text != [] { CompletedIsStuck(a, text[1..]); }
  }

  /** From state k the flag gets set if and only if the events from k on occur in order: greed loses nothing. */
  lemma {:induction false} PassesIffSubsequence(k: nat, text: seq<Pair>)
    ensures Run(Audit(k, false), text).passed <==> k < |SEQUENCE| && Subsequence(SEQUENCE[k..], text)
    decreases |text|
  {
    if k >= |SEQUENCE| {
      CompletedIsStuck(Audit(k, false), text);
    } else if text == [] {
      forall f | |f| == |SEQUENCE[k..]| ensures !Increasing(f, 0) { assert f[0] >= 0; }
    } else {
      StepPasses(k, text);
    }
  }

  lemma {:induction false} StepPasses(k: nat, text: seq<Pair>)
    requires k < |SEQUENCE| && text != []
    ensures Run(Audit(k, false), text).passed <==> Subsequence(SEQUENCE[k..], text)
    decreases |text|, 0
  {
    var pattern, rest := SEQUENCE[k..], text[1..];
    assert pattern[1..] == SEQUENCE[k + 1..];
    HeadPicks(pattern, text);
    if Subsequence(pattern, text) {
      var f :| Picks(pattern, text, f);
      TailPicks(pattern, text, f);
    }
    if text[0] != pattern[0] {
      PassesIffSubsequence(k, rest);
    } else if k + 1 < |SEQUENCE| {
      PassesIffSubsequence(k + 1, rest);
    } else {
      CompletedIsStuck(Audit(k + 1, true), rest);
      assert Picks(pattern[1..], rest, []);
    }
  }

  // ---------- the audit of a dump ----------

  /** The automaton as a handler of traces; it never stops the parse. */
  function Handle(a: Audit, t: Trace): (Audit, int) {
    (if |t.data| >= 2 then Step(a, (t.data[0], t.data[1])) else a, 0)
  }

  /** A packet's first two bytes; a single byte is followed by the buffer's zero. */
  function Lead(p: Packet): Pair
    requires |p.data| >= 1
  {
    (p.data[0], if |p.data| >= 2 then p.data[1] else 0)
  }

  function Leads(ps: seq<Packet>): (s: seq<Pair>)
    requires Framed(ps)
  {
    seq(|ps|, i requires 0 <= i < |ps| => Lead(ps[i]))
  }

  lemma {:induction false} RunAppend(a: Audit, text: seq<Pair>, seen: Pair)
    ensures Run(a, text + [seen]) == Step(Run(a, text), seen)
    decreases |text|
  {
    if text != [] {
      RunAppend(Step(a, text[0]), text[1..], seen);
      assert (text + [seen])[1..] == text[1..] + [seen];
    } else {
      assert [] + [seen] == [seen] && [seen][1..] == [];
    }
  }

  lemma {:induction false} NeverStops(a: Audit, ts: seq<Trace>)
    ensures Accepts(Handle, a, ts)
  {
    if ts != [] { NeverStops(a, ts[..|ts| - 1]); }
  }

  lemma {:induction false} FoldIsRun(a: Audit, ps: seq<Packet>)
    requires Framed(ps)
    ensures Fold(Handle, a, Traces(ps)) == Run(a, Leads(ps))
  {
    if ps != [] {
      var front, p := ps[..|ps| - 1], ps[|ps| - 1];
      FoldIsRun(a, front);
      assert Traces(ps)[..|ps| - 1] == Traces(front);
      assert Leads(ps) == Leads(front) + [Lead(p)];
      RunAppend(a, Leads(front), Lead(p));
      assert Traces(ps)[|ps| - 1] == TraceOf(p);
    }
  }

  /** The echo at the end of the file begins with two zeros, which is no event, and changes nothing. */
  lemma EchoIsIgnored(a: Audit, ps: seq<Packet>)
    requires Framed(ps) && ps != []
    ensures Fold(Handle, a, Deliveries(ps)) == Run(a, Leads(ps))
  {
    FoldIsRun(a, ps);
    FoldStep(Handle, a, Traces(ps), TraceOf(ps[|ps| - 1]).(data := Zeros(HCI_MAX_FRAME_SIZE)));
  }

  /**
   The whole way: packets logged piecemeal and parsed piecemeal pass a fresh audit if and only if
   the four events are a subsequence of the packets' first two bytes.
   */
  method AuditLog(ps: seq<Packet>, onWrite: seq<Event>, onRead: seq<Event>) returns (passed: bool)
    requires Framed(ps) && ps != []
    requires NeverNothing(onWrite) && NeverFails(onWrite) && NeverNothing(onRead) && NeverFails(onRead)
    ensures passed <==> Subsequence(SEQUENCE, Leads(ps))
  {
    NeverStops(Audit(0, false), Deliveries(ps));
    var ret, a := LogThenParse(ps, onWrite, onRead, Handle, Audit(0, false));
    EchoIsIgnored(Audit(0, false), ps);
    PassesIffSubsequence(0, Leads(ps));
    assert SEQUENCE[0..] == SEQUENCE;
    passed := a.passed;
  }
}
