/**
 The size-limited JSON lines of logTraceWriter (ddtrace/tracer/writer.go).  A span is
 represented by the text that encodeSpan writes for it.
 */
module LogWriter {
  import opened Common

  const LIMIT: nat := 256 * 1024
  const PREFIX := "{\"traces\": ["
  const SUFFIX := "]}\n"

  // ---------- What a line says ----------

  function JoinSpans(spans: seq<string>): string {
    if spans == [] then ""
    else if |spans| == 1 then spans[0]
    else JoinSpans(spans[..|spans| - 1]) + "," + spans[|spans| - 1]
  }

  function Opener(isFirst: bool): string { if isFirst then "[" else ", [" }

  /** The buffer that holds these traces. */
  function Body(traces: seq<seq<string>>): string {
    if traces == [] then PREFIX
    else
      var front := traces[..|traces| - 1];
      Body(front) + Opener(front == []) + JoinSpans(traces[|traces| - 1]) + "]"
  }

  function Line(traces: seq<seq<string>>): string { Body(traces) + SUFFIX }

  lemma Sizes()
    ensures |PREFIX| == 12 && |SUFFIX| == 3
  {}

  lemma JoinSnoc(spans: seq<string>, s: string)
    ensures JoinSpans(spans + [s]) == if spans == [] then s else JoinSpans(spans) + "," + s
  {
    assert (spans + [s])[..|spans|] == spans;
  }

  lemma BodySnoc(traces: seq<seq<string>>, t: seq<string>)
    ensures Body(traces + [t]) == Body(traces) + Opener(traces == []) + JoinSpans(t) + "]"
  {
    assert (traces + [t])[..|traces|] == traces;
  }

  /** A span that does not even fit alone in an empty buffer. */
  predicate TooLarge(s: string) { |PREFIX| + 1 + |s| > LIMIT - |SUFFIX| }

  /** The longest prefix of a trace without a span that is too large. */
  function Acceptable(trace: seq<string>): seq<string> {
    if trace == [] || TooLarge(trace[0]) then [] else [trace[0]] + Acceptable(trace[1..])
  }

  lemma {:induction false} AcceptableSplit(done: seq<string>, rest: seq<string>)
    requires forall i :: 0 <= i < |done| ==> !TooLarge(done[i])
    ensures Acceptable(done + rest) == done + Acceptable(rest)
  {
    hide TooLarge;
    if done == [] {
      assert done + rest == rest && [] + Acceptable(rest) == Acceptable(rest);
    } else {
      assert (done + rest)[1..] == done[1..] + rest;
      AcceptableSplit(done[1..], rest);
      assert done + Acceptable(rest) == [done[0]] + (done[1..] + Acceptable(rest));
    }
  }

  /** What Acceptable means: a prefix, free of large spans, that ends only at a large span or at the end. */
  lemma {:induction false} AcceptableIsLongest(trace: seq<string>)
    ensures Acceptable(trace) <= trace
    ensures forall s :: s in Acceptable(trace) ==> !TooLarge(s)
    ensures |Acceptable(trace)| < |trace| ==> TooLarge(trace[|Acceptable(trace)|])
  {
    hide TooLarge;
    if trace != [] && !TooLarge(trace[0]) {
      AcceptableIsLongest(trace[1..]);
    }
  }

  /** A line may be one byte longer than the limit with its newline, never longer without it. */
  lemma LineMayReachLimit(s: string)
    requires |s| == LIMIT - 16
    ensures !TooLarge(s) && |Line([[s]])| == LIMIT + 1
  {
    Sizes();
    assert [[s]][..0] == [];
    assert Body([[s]]) == PREFIX + "[" + s + "]";
  }

  // ---------- The writer ----------

  ghost predicate LineInv(line: string, held: seq<seq<string>>) {
    line == Line(held) && |line| <= LIMIT + 1 && held != [] && forall j :: 0 <= j < |held| ==> held[j] != []
  }

  /** Each line written holds what it should. */
  ghost predicate LinesInv(out: seq<string>, sent: seq<seq<seq<string>>>) {
    |out| == |sent| && forall i :: 0 <= i < |out| ==> LineInv(out[i], sent[i])
  }

  /** The spans of all lines and of the buffer, in order. */
  ghost function Everything(sent: seq<seq<seq<string>>>, traces: seq<seq<string>>): seq<string> {
    Flatten(Flatten(sent)) + Flatten(traces)
  }

  lemma EverythingSnoc(sent: seq<seq<seq<string>>>, traces: seq<seq<string>>, t: seq<string>)
    ensures Everything(sent, traces + [t]) == Everything(sent, traces) + t
  {
    hide Flatten;
    FlattenSnoc(traces, t);
  }

  lemma EverythingFlushed(sent: seq<seq<seq<string>>>, traces: seq<seq<string>>)
    ensures Everything(sent + [traces], []) == Everything(sent, traces)
  {
    FlattenSnoc(sent, traces);
    FlattenAppend(Flatten(sent), traces);
  }

  class Writer {
    var buf: string
    var hasTraces: bool
    var out: seq<string>                    // the lines written so far
    ghost var traces: seq<seq<string>>      // what the buffer holds
    ghost var sent: seq<seq<seq<string>>>   // what each line held

    /** The buffer is the text of the traces it holds, whatever its size. */
    ghost predicate Shape()
      reads this
    {
      buf == Body(traces) && hasTraces == (traces != []) && LinesInv(out, sent)
    }

    ghost predicate Valid()
      reads this
    {
      Shape() && |buf| <= LIMIT - 2 && forall i :: 0 <= i < |traces| ==> traces[i] != []
    }

    /** Every span written so far, flushed or not, in order. */
    ghost function Contents(): seq<string>
      reads this
    {
      Everything(sent, traces)
    }

    constructor ()
      ensures Valid() && traces == [] && sent == [] && Contents() == []
    {
      Sizes();
      buf, hasTraces, out := PREFIX, false, [];
      traces, sent := [], [];
    }

    /**
     Writes as many spans of the trace as fit into the buffer.  n == 0 without an error means that the
     first span did not fit behind the traces already there; an error, that it does not fit at all.
     A trace without spans is written as an empty list, and its size is not checked.
     */
    method WriteTrace(trace: seq<string>) returns (n: nat, tooLarge: bool)
      requires Valid()
      modifies this`buf, this`hasTraces, this`traces
      ensures Shape() && n <= |trace| && (trace != [] ==> Valid())
      ensures forall i :: 0 <= i < n ==> !TooLarge(trace[i])
      ensures n > 0 || trace == [] ==> !tooLarge && traces == old(traces) + [trace[..n]]
      ensures n == 0 && trace != [] ==> traces == old(traces) && (tooLarge <==> traces == []) && (tooLarge ==> TooLarge(trace[0]))
    {
      hide JoinSpans, Body, LinesInv, Opener, TooLarge;
      var room := LIMIT - |SUFFIX|;
      Sizes();
      BodyIsLong(traces);
      OpenerLength(!hasTraces);
      var startn := |buf|;
      buf := buf + Opener(!hasTraces);
      ghost var base := buf;
      n := 0;
      JoinNothing();
      while n < |trace|
        invariant n <= |trace| && buf == base + JoinSpans(trace[..n])
        invariant n > 0 ==> |buf| <= room
        invariant forall i :: 0 <= i < n ==> !TooLarge(trace[i])
        invariant traces == old(traces) && hasTraces == old(hasTraces)
      {
        ghost var written := buf;
        var before := |buf|;
        Appending(base, trace, n);
        Fitting(trace[n], base);
        if n > 0 {
          buf := buf + ",";
        }
        buf := buf + trace[n];
        if |buf| > room {
          if n == 0 {
            CutBack(old(buf), Opener(!hasTraces), trace[0]);
            buf := buf[..startn];
            return 0, !hasTraces;
          }
          CutBack(written, ",", trace[n]);
          buf := buf[..before];
          break;
        }
        n := n + 1;
      }
      BodySnoc(traces, trace[..n]);
      buf := buf + "]";
      hasTraces := true;
      traces := traces + [trace[..n]];
      tooLarge := false;
    }

    method Flush()
      requires Valid()
      modifies this
      ensures Valid() && traces == []
      ensures sent == if old(traces) == [] then old(sent) else old(sent) + [old(traces)]
      ensures Contents() == old(Contents())
    {
      hide Body, JoinSpans, Everything;
      if !hasTraces {
        return;
      }
      Sizes();
      EmptyBody();
      EverythingFlushed(sent, traces);
      out := out + [buf + SUFFIX];
      sent := sent + [traces];
      traces := [];
      buf := PREFIX;
      hasTraces := false;
    }

    /**
     Adds a trace, flushing whenever the buffer is full.  It terminates on every trace and writes
     exactly the longest prefix without a span too large for any buffer, in order and once.
     */
    method Add(trace: seq<string>)
      requires Valid()
      modifies this
      ensures Valid() && old(sent) <= sent
      ensures Contents() == old(Contents()) + Acceptable(trace)
    {
      hide Valid, Shape, TooLarge, Acceptable, Everything;
      ghost var done := 0;
      var rest := trace;
      NothingAdded(trace, Contents());
      while |rest| > 0
        invariant Valid() && old(sent) <= sent
        invariant 0 <= done <= |trace| && rest == trace[done..]
        invariant Contents() == old(Contents()) + trace[..done]
        invariant forall i :: 0 <= i < done ==> !TooLarge(trace[i])
        decreases |rest|, |traces|
      {
        ghost var held := traces;
        var n, tooLarge := WriteTrace(rest);
        if tooLarge {
          AcceptableEnds(trace, done);
          return;
        }
        EverythingSnoc(sent, held, rest[..n]);
        MoreAdded(trace, done, n, old(Contents()), Contents());
        done := done + n;
        rest := rest[n..];
        if |rest| > 0 {
          Flush();
        }
      }
      AcceptableEnds(trace, done);
    }
  }

  lemma NothingAdded(trace: seq<string>, before: seq<string>)
    ensures trace[0..] == trace && before == before + trace[..0]
  {
  }

  lemma MoreAdded(trace: seq<string>, done: nat, n: nat, before: seq<string>, now: seq<string>)
    requires done + n <= |trace|
    requires now == before + trace[..done] + trace[done..][..n] || (n == 0 && now == before + trace[..done])
    ensures now == before + trace[..done + n] && trace[done..][n..] == trace[done + n..]
    ensures forall i :: 0 <= i < n ==> trace[done..][i] == trace[done + i]
  {
    assert trace[..done + n] == trace[..done] + trace[done..][..n];
  }

  /** The loop stops at the end or at a span that is too large, after spans that are not. */
  lemma AcceptableEnds(trace: seq<string>, done: nat)
    requires done <= |trace| && (forall i :: 0 <= i < done ==> !TooLarge(trace[i]))
    requires done < |trace| ==> TooLarge(trace[done..][0])
    ensures Acceptable(trace) == trace[..done]
  {
    hide TooLarge;
    assert trace == trace[..done] + trace[done..];
    AcceptableSplit(trace[..done], trace[done..]);
    assert Acceptable(trace[done..]) == [];
  }

  lemma Appending(base: string, trace: seq<string>, n: nat)
    requires n < |trace|
    ensures n > 0 ==> base + JoinSpans(trace[..n]) + "," + trace[n] == base + JoinSpans(trace[..n + 1])
    ensures n == 0 ==> base + JoinSpans(trace[..n]) == base && base + trace[n] == base + JoinSpans(trace[..n + 1])
  {
    assert trace[..n + 1] == trace[..n] + [trace[n]];
    JoinSnoc(trace[..n], trace[n]);
  }

  lemma CutBack(a: string, b: string, c: string)
    ensures (a + b + c)[..|a|] == a
  {
  }

  lemma BodyIsLong(traces: seq<seq<string>>)
    ensures |Body(traces)| >= 12 && (traces == [] ==> Body(traces) == PREFIX)
  {
    Sizes();
    if traces != [] {
      BodyIsLong(traces[..|traces| - 1]);
    }
  }

  lemma OpenerLength(isFirst: bool)
    ensures 1 <= |Opener(isFirst)| <= 3 && (isFirst ==> |Opener(isFirst)| == 1)
  {}

  /** What fits behind other text fits behind the shortest; what does not fit behind that is too large. */
  lemma Fitting(s: string, base: string)
    ensures |base| >= 13 && |base| + |s| <= LIMIT - 3 ==> !TooLarge(s)
    ensures |base| == 13 && |base| + |s| > LIMIT - 3 ==> TooLarge(s)
  {
    Sizes();
  }

  lemma JoinNothing()
    ensures forall t: seq<string> :: JoinSpans(t[..0]) == ""
  {}

  lemma EmptyBody()
    ensures Body([]) == PREFIX
  {}
}
