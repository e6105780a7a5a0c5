/** Reading a log line back: its nested lists are the buffered chunks, in order. */
module LogReader {
  import opened Common
  import opened LogWriter

  /** Where a scan of JSON text stands: nesting depth, inside a string, after a backslash. */
  datatype Lex = Lex(depth: int, quoted: bool, escaped: bool)

  const OUTSIDE: Lex := Lex(0, false, false)

  function Next(l: Lex, c: char): Lex {
    if l.quoted then
      (if l.escaped then l.(escaped := false)
       else if c == '\\' then l.(escaped := true)
       else if c == '\"' then l.(quoted := false)
       else l)
    else if c == '\"' then l.(quoted := true)
    else if c == '{' || c == '[' then l.(depth := l.depth + 1)
    else if c == '}' || c == ']' then l.(depth := l.depth - 1)
    else l
  }

  function Scan(l: Lex, s: string): Lex
    decreases |s|
  {
    if s == "" then l else Scan(Next(l, s[0]), s[1..])
  }

  predicate Closed(l: Lex) { l.depth == 0 && !l.quoted }

  /** Text that closes exactly at its end, as the JSON text of one object does. */
  ghost predicate ClosesAtEnd(l: Lex, s: string) {
    s != "" && Closed(Scan(l, s)) && forall k :: 0 < k < |s| ==> !Closed(Scan(l, s[..k]))
  }

  ghost predicate IsObject(s: string) { ClosesAtEnd(OUTSIDE, s) }

  /** The length of the shortest nonempty prefix that closes, 0 if there is none. */
  function ObjectEnd(l: Lex, s: string): (n: nat)
    ensures n <= |s|
    decreases |s|
  {
    if s == "" then 0
    else
      var l' := Next(l, s[0]);
      if Closed(l') then 1
      else
        var n := ObjectEnd(l', s[1..]);
        if n == 0 then 0 else n + 1
  }

  lemma {:induction false} ObjectEndIs(l: Lex, x: string, rest: string)
    requires ClosesAtEnd(l, x)
    ensures ObjectEnd(l, x + rest) == |x|
    decreases |x|
  {
    hide Next;
    var l' := Next(l, x[0]);
    assert (x + rest)[0] == x[0] && (x + rest)[1..] == x[1..] + rest;
    assert Scan(l', "") == l';
    assert x[..1][1..] == "";
    assert Scan(l, x[..1]) == l';
    if |x| == 1 {
      assert x[..1] == x;
    } else {
      forall k | 0 < k < |x[1..]| ensures !Closed(Scan(l', x[1..][..k])) {
        assert x[..k + 1][1..] == x[1..][..k];
      }
      ObjectEndIs(l', x[1..], rest);
    }
  }

  datatype Reading<+T> = Fail | Ok(value: T, rest: string)

  /** Objects separated by commas, up to the closing bracket. */
  function ReadSpans(s: string): Reading<seq<string>>
    decreases |s|
  {
    var e := ObjectEnd(OUTSIDE, s);
    if e == 0 || e == |s| then Fail
    else if s[e] == ']' then Ok([s[..e]], s[e + 1..])
    else if s[e] == ',' then
      match ReadSpans(s[e + 1..])
      case Fail => Fail
      case Ok(more, rest) => Ok([s[..e]] + more, rest)
    else Fail
  }

  /** Lists separated by ", ", up to the end of the line. */
  function ReadTraces(s: string): Option<seq<seq<string>>>
    decreases |s|
  {
    if s == "" || s[0] != '[' then None
    else match ReadSpans(s[1..])
      case Fail => None
      case Ok(spans, rest) =>
        if rest == SUFFIX then Some([spans])
        else if |rest| < |s| && ", " <= rest then
          match ReadTraces(rest[2..])
          case None => None
          case Some(more) => Some([spans] + more)
        else None
  }

  function ReadLine(s: string): Option<seq<seq<string>>> {
    if PREFIX <= s then ReadTraces(s[|PREFIX|..]) else None
  }

  lemma Assoc(a: string, b: string, c: string)
    ensures a + (b + c) == a + b + c
  {
  }

  lemma {:induction false} JoinCons(x: string, ys: seq<string>)
    requires ys != []
    ensures JoinSpans([x] + ys) == x + "," + JoinSpans(ys)
    decreases |ys|
  {
    hide JoinSpans;
    var front, y := ys[..|ys| - 1], ys[|ys| - 1];
    assert ys == front + [y];
    Snoc(x, front, y);
    JoinSnoc([x] + front, y);
    JoinSnoc(front, y);
    if front == [] {
      assert [x] + front == [x];
      JoinOne(x);
    } else {
      JoinCons(x, front);
      JoinShift(x + ",", JoinSpans(front), y);
    }
  }

  lemma Snoc(x: string, front: seq<string>, y: string)
    ensures [x] + (front + [y]) == ([x] + front) + [y]
  {
  }

  lemma JoinShift(a: string, b: string, c: string)
    ensures a + b + "," + c == a + (b + "," + c)
  {
  }

  lemma ReadOneSpan(x: string, sep: char, tail: string)
    requires IsObject(x)
    ensures sep == ']' ==> ReadSpans(x + ([sep] + tail)) == Ok([x], tail)
    ensures sep == ',' && ReadSpans(tail).Ok? ==>
      ReadSpans(x + ([sep] + tail)) == Ok([x] + ReadSpans(tail).value, ReadSpans(tail).rest)
  {
    hide ObjectEnd, ClosesAtEnd;
    var s := x + ([sep] + tail);
    ObjectEndIs(OUTSIDE, x, [sep] + tail);
    ObjectIsNonempty(x);
    assert s[..|x|] == x && s[|x|] == sep && s[|x| + 1..] == tail;
  }

  lemma ObjectIsNonempty(x: string)
    requires IsObject(x)
    ensures x != ""
  {}

  lemma {:induction false} ReadSpansBack(spans: seq<string>, rest: string)
    requires spans != [] && forall i :: 0 <= i < |spans| ==> IsObject(spans[i])
    ensures ReadSpans(JoinSpans(spans) + "]" + rest) == Ok(spans, rest)
    decreases |spans|
  {
    hide JoinSpans, ReadSpans, IsObject;
    var x, ys := spans[0], spans[1..];
    if ys == [] {
      JoinOne(x);
      assert spans == [x];
      ReadOneSpan(x, ']', rest);
      assert x + "]" + rest == x + ("]" + rest);
    } else {
      JoinCons(x, ys);
      assert spans == [x] + ys;
      var tail := JoinSpans(ys) + "]" + rest;
      ReadSpansBack(ys, rest);
      ReadOneSpan(x, ',', tail);
      assert x + "," + JoinSpans(ys) + "]" + rest == x + ("," + tail);
    }
  }

  lemma JoinOne(x: string)
    ensures JoinSpans([x]) == x
  {}

  function Bracket(t: seq<string>): string { "[" + JoinSpans(t) + "]" }

  /** The traces of a line from the first on, as the reader meets them. */
  function Text(traces: seq<seq<string>>): string {
    if traces == [] then ""
    else if |traces| == 1 then Bracket(traces[0])
    else Bracket(traces[0]) + (", " + Text(traces[1..]))
  }

  lemma Shift(a: string, b: string, c: string, d: string)
    ensures a + (b + (c + d)) == a + (b + c) + d
  {
  }

  lemma {:induction false} TextSnoc(traces: seq<seq<string>>, t: seq<string>)
    ensures Text(traces + [t]) == if traces == [] then Bracket(t) else Text(traces) + (", " + Bracket(t))
    decreases |traces|
  {
    hide Bracket;
    if traces == [] {
      assert traces + [t] == [t];
    } else {
      assert (traces + [t])[1..] == traces[1..] + [t];
      TextSnoc(traces[1..], t);
      if |traces| > 1 {
        Shift(Bracket(traces[0]), ", ", Text(traces[1..]), ", " + Bracket(t));
      }
    }
  }

  lemma OpenBracket(before: string, isFirst: bool, t: seq<string>)
    ensures isFirst ==> before + Opener(isFirst) + JoinSpans(t) + "]" == before + Bracket(t)
    ensures !isFirst ==> before + Opener(isFirst) + JoinSpans(t) + "]" == before + (", " + Bracket(t))
  {
    hide JoinSpans;
  }

  lemma {:induction false} BodyIsText(traces: seq<seq<string>>)
    ensures Body(traces) == PREFIX + Text(traces)
    decreases |traces|
  {
    hide Bracket, Text, Opener, JoinSpans;
    if traces == [] {
      NoText();
    } else {
      var front, t := traces[..|traces| - 1], traces[|traces| - 1];
      assert front + [t] == traces;
      BodyIsText(front);
      TextSnoc(front, t);
      OpenBracket(Body(front), front == [], t);
      hide Body, PREFIX;
      if front == [] {
        NoText();
      } else {
        Assoc(PREFIX, Text(front), ", " + Bracket(t));
      }
    }
  }

  lemma NoText()
    ensures Text([]) == ""
  {
  }

  ghost predicate Readable(traces: seq<seq<string>>) {
    forall i :: 0 <= i < |traces| ==> traces[i] != [] && forall j :: 0 <= j < |traces[i]| ==> IsObject(traces[i][j])
  }

  ghost predicate ReadableSpans(t: seq<string>) { t != [] && forall j :: 0 <= j < |t| ==> IsObject(t[j]) }

  lemma LastTrace(t: seq<string>)
    requires ReadableSpans(t)
    ensures ReadTraces(Bracket(t) + SUFFIX) == Some([t])
  {
    hide JoinSpans, ReadSpans, IsObject;
    var s := Bracket(t) + SUFFIX;
    BracketThen(t, SUFFIX);
    ReadSpansBack(t, SUFFIX);
  }

  lemma NextTrace(t: seq<string>, tail: string)
    requires ReadableSpans(t) && ReadTraces(tail).Some?
    ensures ReadTraces(Bracket(t) + (", " + tail)) == Some([t] + ReadTraces(tail).value)
  {
    var rest := ", " + tail;
    SeparatorThen(tail);
    hide JoinSpans, ReadSpans, IsObject, SUFFIX;
    BracketThen(t, rest);
    ReadSpansBack(t, rest);
  }

  lemma SeparatorThen(tail: string)
    ensures var rest := ", " + tail; ", " <= rest && rest[2..] == tail && rest != SUFFIX
  {
    assert (", " + tail)[0] == ',' && SUFFIX[0] == ']';
  }

  lemma BracketThen(t: seq<string>, rest: string)
    ensures var s := Bracket(t) + rest;
      s != "" && s[0] == '[' && s[1..] == JoinSpans(t) + "]" + rest && |rest| < |s|
  {
    hide JoinSpans;
  }

  lemma {:induction false} ReadTracesBack(traces: seq<seq<string>>)
    requires traces != [] && Readable(traces)
    ensures ReadTraces(Text(traces) + SUFFIX) == Some(traces)
    decreases |traces|
  {
    hide IsObject, Bracket, ReadTraces, SUFFIX;
    var t, more := traces[0], traces[1..];
    if more == [] {
      LastTrace(t);
      assert traces == [t];
    } else {
      ReadTracesBack(more);
      NextTrace(t, Text(more) + SUFFIX);
      Shift(Bracket(t), ", ", Text(more), SUFFIX);
      assert [t] + more == traces;
    }
  }

  /** A log line reads back as the traces it was made of, if every span's text is one JSON object. */
  lemma LineReadsBack(traces: seq<seq<string>>)
    requires traces != [] && Readable(traces)
    ensures ReadLine(Line(traces)) == Some(traces)
  {
    hide Body, Text, ReadTraces, Readable;
    BodyIsText(traces);
    ReadTracesBack(traces);
    assert Line(traces) == PREFIX + (Text(traces) + SUFFIX);
    assert Line(traces)[|PREFIX|..] == Text(traces) + SUFFIX;
  }
}
