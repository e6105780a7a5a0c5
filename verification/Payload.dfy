/**
 The incremental msgpack array of ddtrace/tracer/payload.go: items are appended one at a time,
 the header is rewritten as the count grows, and the whole is read as one byte stream.
 */
module Payload {
  import opened Common
  import opened Msgpack
  import opened SpanCodec
  import SpanRoundTrip

  // ---------- The stream as a value ----------

  /** The unread bytes of the header, the number of items and the unread bytes of the items. */
  datatype Stream = Stream(head: Bytes, count: nat, body: Bytes) {
    function Unread(): Bytes { head + body }
  }

  function New(): Stream { Stream([], 0, []) }

  /** The counter is 32 bits wide and wraps around. */
  function Wrapped(n: nat): nat { n % U32 }

  function Pushed(p: Stream, item: seq<Token>): Stream
    requires AllValid(item)
  {
    var count := Wrapped(p.count + 1);
    Stream(WriteArrayHeader(count), count, p.body + WriteAll(item))
  }

  function Min(x: nat, y: nat): nat { if x <= y then x else y }

  /** How many bytes a Read into a buffer of n bytes delivers; header and items are never mixed in one call. */
  function ReadCount(p: Stream, n: nat): nat {
    if p.head != [] then Min(n, |p.head|) else Min(n, |p.body|)
  }

  function Output(p: Stream, n: nat): Bytes {
    if p.head != [] then p.head[..ReadCount(p, n)] else p.body[..ReadCount(p, n)]
  }

  function AfterRead(p: Stream, n: nat): Stream {
    if p.head != [] then p.(head := p.head[ReadCount(p, n)..]) else p.(body := p.body[ReadCount(p, n)..])
  }

  function PushAll(items: seq<seq<Token>>): Stream
    requires forall i :: 0 <= i < |items| ==> AllValid(items[i])
  {
    if items == [] then New() else Pushed(PushAll(items[..|items| - 1]), items[|items| - 1])
  }

  function Outputs(p: Stream, sizes: seq<nat>): Bytes
    decreases |sizes|
  {
    if sizes == [] then [] else Output(p, sizes[0]) + Outputs(AfterRead(p, sizes[0]), sizes[1..])
  }

  function AfterReads(p: Stream, sizes: seq<nat>): Stream
    decreases |sizes|
  {
    if sizes == [] then p else AfterReads(AfterRead(p, sizes[0]), sizes[1..])
  }

  lemma {:induction false} FlattenValid(items: seq<seq<Token>>)
    requires forall i :: 0 <= i < |items| ==> AllValid(items[i])
    ensures AllValid(Flatten(items))
  {
    hide Valid;
    if items != [] {
      FlattenValid(items[1..]);
    }
  }

  lemma {:induction false} PushedBody(items: seq<seq<Token>>)
    requires forall i :: 0 <= i < |items| ==> AllValid(items[i])
    ensures AllValid(Flatten(items))
    ensures PushAll(items).body == WriteAll(Flatten(items)) && PushAll(items).count == Wrapped(|items|)
  {
    hide Valid, WriteAll, WriteArrayHeader;
    FlattenValid(items);
    if items == [] {
      assert WriteAll([]) == [] by { WriteNothing(); }
    } else {
      var front, last := items[..|items| - 1], items[|items| - 1];
      PushedBody(front);
      assert front + [last] == items;
      FlattenSnoc(front, last);
      WriteAllAppend(Flatten(front), last);
      CountOneMore(|front|);
    }
  }

  lemma CountOneMore(n: nat)
    ensures Wrapped(Wrapped(n) + 1) == Wrapped(n + 1)
  {
  }

  lemma WriteNothing()
    ensures WriteAll([]) == []
  {}

  /** What the one-shot encoder writes for an array of these items: its header too has the count modulo 2^32. */
  function OneShot(items: seq<seq<Token>>): Bytes
    requires AllValid(Flatten(items))
  {
    WriteArrayHeader(Wrapped(|items|)) + WriteAll(Flatten(items))
  }

  /**
   For every number of pushes the stream is byte for byte the one-shot encoding of the array of
   the pushed items, in each of the three header forms, if and only if there was a push: without
   one there is no header at all, although an empty array is one byte long.
   */
  lemma PushedIsOneShot(items: seq<seq<Token>>)
    requires forall i :: 0 <= i < |items| ==> AllValid(items[i])
    ensures AllValid(Flatten(items)) && (PushAll(items).Unread() == OneShot(items) <==> items != [])
    ensures |items| < U32 ==>
      AllValid([Array(|items|)] + Flatten(items)) && OneShot(items) == WriteAll([Array(|items|)] + Flatten(items))
  {
    hide Valid, WriteAll, WriteArrayHeader, Wrapped, Flatten;
    PushedBody(items);
    if items == [] {
      EmptyArray();
    } else {
      PushedHead(items);
    }
    if |items| < U32 {
      ArrayAlone(|items|);
      WriteAllAppend([Array(|items|)], Flatten(items));
    }
  }

  lemma PushedHead(items: seq<seq<Token>>)
    requires items != [] && forall i :: 0 <= i < |items| ==> AllValid(items[i])
    ensures PushAll(items).head == WriteArrayHeader(PushAll(items).count)
  {
    hide WriteAll, WriteArrayHeader, Wrapped, AllValid;
  }

  lemma EmptyArray()
    ensures WriteArrayHeader(Wrapped(0)) == [0x90] && PushAll([]).Unread() == []
  {}

  lemma ArrayAlone(n: nat)
    requires n < U32
    ensures AllValid([Array(n)]) && WriteAll([Array(n)]) == WriteArrayHeader(n) && Wrapped(n) == n
  {
    assert [Array(n)][1..] == [];
  }

  /** Reading delivers the stream in order, in pieces that depend on nothing but the buffer sizes. */
  lemma {:induction false} ReadsDeliver(p: Stream, sizes: seq<nat>)
    ensures Outputs(p, sizes) + AfterReads(p, sizes).Unread() == p.Unread()
    decreases |sizes|
  {
    if sizes != [] {
      var n := sizes[0];
      var q := AfterRead(p, n);
      assert Output(p, n) + q.Unread() == p.Unread();
      ReadsDeliver(q, sizes[1..]);
      var rest := AfterReads(q, sizes[1..]).Unread();
      assert Output(p, n) + Outputs(q, sizes[1..]) + rest == Output(p, n) + (Outputs(q, sizes[1..]) + rest);
    }
  }

  lemma {:induction false} ReadsProgress(p: Stream, sizes: seq<nat>)
    requires forall i :: 0 <= i < |sizes| ==> sizes[i] > 0
    ensures |AfterReads(p, sizes).Unread()| <= if |p.Unread()| <= |sizes| then 0 else |p.Unread()| - |sizes|
    decreases |sizes|
  {
    if sizes != [] {
      var q := AfterRead(p, sizes[0]);
      assert |q.Unread()| < |p.Unread()| || |p.Unread()| == 0;
      ReadsProgress(q, sizes[1..]);
    }
  }

  /** Any sequence of nonempty buffers, at least as many as there are bytes, reads the whole stream. */
  lemma ReadsEverything(p: Stream, sizes: seq<nat>)
    requires (forall i :: 0 <= i < |sizes| ==> sizes[i] > 0) && |sizes| >= |p.Unread()|
    ensures Outputs(p, sizes) == p.Unread() && AfterReads(p, sizes).Unread() == []
  {
    ReadsProgress(p, sizes);
    ReadsDeliver(p, sizes);
    assert Outputs(p, sizes) + [] == Outputs(p, sizes);
  }

  function ListItems(lists: seq<seq<Slot>>, chss: seq<seq<Choice>>): seq<seq<Token>>
    requires GoodLists(lists, chss)
  {
    seq(|lists|, i requires 0 <= i < |lists| => ListTokens(lists[i], chss[i]))
  }

  lemma {:induction false} ItemsAreListsBody(lists: seq<seq<Slot>>, chss: seq<seq<Choice>>)
    requires GoodLists(lists, chss)
    ensures Flatten(ListItems(lists, chss)) == ListsBody(lists, chss)
    decreases |lists|
  {
    hide ListTokens, GoodSlots;
    if lists != [] {
      assert ListItems(lists, chss)[1..] == ListItems(lists[1..], chss[1..]);
      ItemsAreListsBody(lists[1..], chss[1..]);
    }
  }

  /**
   Whatever the sizes of the nonempty buffers it is read with, a payload delivers the bytes of the
   one-shot encoding of the span lists that were pushed, and these decode to the same lists.
   */
  lemma PayloadDecodes(lists: seq<seq<Slot>>, chss: seq<seq<Choice>>, sizes: seq<nat>)
    requires GoodLists(lists, chss) && lists != []
    requires forall i :: 0 <= i < |sizes| ==> sizes[i] > 0
    ensures forall i :: 0 <= i < |lists| ==> AllValid(ListItems(lists, chss)[i])
    ensures AllValid(ListsTokens(lists, chss))
    ensures |PushAll(ListItems(lists, chss)).Unread()| == |WriteAll(ListsTokens(lists, chss))|
    ensures |sizes| >= |PushAll(ListItems(lists, chss)).Unread()| ==>
      && Outputs(PushAll(ListItems(lists, chss)), sizes) == WriteAll(ListsTokens(lists, chss))
      && DecodeLists(Outputs(PushAll(ListItems(lists, chss)), sizes)) == Some(lists)
  {
    hide ListTokens, Valid, WriteAll, PushAll, Outputs, GoodSlots;
    var items := ListItems(lists, chss);
    forall i | 0 <= i < |lists| ensures AllValid(items[i]) {
      SpanRoundTrip.ListValid(lists[i], chss[i]);
    }
    PushedIsOneShot(items);
    ItemsAreListsBody(lists, chss);
    SpanRoundTrip.RoundTrip(lists, chss);
    assert [Array(|items|)] + Flatten(items) == ListsTokens(lists, chss);
    if |sizes| >= |PushAll(items).Unread()| {
      ReadsEverything(PushAll(items), sizes);
    }
  }

  // ---------- The object ----------

  lemma {:induction false} BigEndianSuffix(v: nat, n: nat, k: nat)
    requires k <= n
    ensures BigEndian(v, n)[n - k..] == BigEndian(v, k)
    decreases k
  {
    if k > 0 {
      BigEndianSuffix(v / 256, n - 1, k - 1);
      assert BigEndian(v, n)[n - k..] == BigEndian(v / 256, n - 1)[n - k..] + [v % 256];
    }
  }

  /** Overwriting the byte before the last ones of a number puts a format byte in front of the short number. */
  lemma HeaderTail(h: Bytes, n: nat, width: nat, lead: Byte)
    requires h == BigEndian(n, 8) && width <= 4
    ensures h[7 - width := lead][7 - width..] == [lead] + BigEndian(n, width)
  {
    hide BigEndian;
    BigEndianSuffix(n, 8, width);
    assert h[7 - width := lead][8 - width..] == h[8 - width..];
  }

  class Buffer {
    const header: array<Byte>
    var off: nat
    var count: nat
    var buf: Bytes

    ghost predicate Valid()
      reads this
    {
      header.Length == 8 && off <= 8 && count < U32
    }

    ghost function View(): Stream
      requires Valid()
      reads this, header
    {
      Stream(header[off..], count, buf)
    }

    constructor ()
      ensures Valid() && fresh(header) && View() == New()
    {
      header := new Byte[8](i => 0);
      off, count, buf := 8, 0, [];
    }

    method Push(item: seq<Token>)
      requires Valid() && AllValid(item)
      modifies this, header
      ensures Valid() && View() == Pushed(old(View()), item)
    {
      buf := buf + WriteAll(item);
      count := Wrapped(count + 1);
      UpdateHeader();
    }

    /** Writes the header for the current count in the last bytes of the eight. */
    method UpdateHeader()
      requires Valid()
      modifies this`off, header
      ensures Valid() && header[off..] == WriteArrayHeader(count)
    {
      var n := count;
      if n <= 15 {
        header[7] := ARRAY_FIX + n;
        off := 7;
        assert header[7..] == [header[7]];
      } else {
        hide BigEndian;
        PutUint64(n);
        ghost var h := header[..];
        var width := if n < 0x1_0000 then 2 else 4;
        var lead := if width == 2 then ARRAY_16 else ARRAY_32;
        off := 7 - width;
        header[off] := lead;
        HeaderTail(h, n, width, lead);
        assert header[..] == h[off := lead];
        assert header[off..] == header[..][off..];
      }
    }

    method PutUint64(n: nat)
      requires header.Length == 8
      modifies header
      ensures header[..] == BigEndian(n, 8)
    {
      var b := BigEndian(n, 8);
      forall i | 0 <= i < 8 {
        header[i] := b[i];
      }
    }

    method Size() returns (n: nat)
      requires Valid()
      ensures n == |View().Unread()|
    {
      n := |buf| + 8 - off;
    }

    /** Fills the front of b; reports the end of the stream only when nothing is left and b is not empty. */
    method Read(b: array<Byte>) returns (n: nat, eof: bool)
      requires Valid() && b != header
      modifies this, b
      ensures Valid() && header[..] == old(header[..])
      ensures n == ReadCount(old(View()), b.Length) && b[..n] == Output(old(View()), b.Length)
      ensures forall i :: n <= i < b.Length ==> b[i] == old(b[i])
      ensures View() == AfterRead(old(View()), b.Length)
      ensures eof <==> b.Length > 0 && old(View()).Unread() == []
    {
      if off < 8 {
        n := Min(b.Length, 8 - off);
        forall i | 0 <= i < n {
          b[i] := header[off + i];
        }
        off := off + n;
        eof := false;
      } else {
        n := Min(b.Length, |buf|);
        eof := |buf| == 0 && b.Length > 0;
        forall i | 0 <= i < n {
          b[i] := buf[i];
        }
        buf := buf[n..];
      }
    }
  }
}
