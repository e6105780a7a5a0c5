/**
 When extraction depends on the order in which a carrier yields its headers.  A carrier maps raw
 keys to lists of values (ddtrace/tracer/textmap.go): the keys come in any order, the values of one
 key in theirs.  Names may be repeated, in one key or in keys that differ in letter case only.
 */
module HeaderOrder {
  import opened Common
  import opened Numerals
  import opened TagHeader
  import opened TraceModel
  import opened Propagation

  /** HTTP headers; a text map is one whose lists have one element each. */
  type Carrier = map<string, seq<string>>

  function LinesOf(k: string, values: seq<string>): (hs: seq<Header>)
    ensures |hs| == |values|
  {
    seq(|values|, i requires 0 <= i < |values| => Header(k, values[i]))
  }

  /** The headers yielded when the keys come in the order `ks`. */
  function Lines(c: Carrier, ks: seq<string>): seq<Header>
    requires forall k :: k in ks ==> k in c
  {
    if ks == [] then []
    else
      var k := ks[|ks| - 1];
      Lines(c, ks[..|ks| - 1]) + LinesOf(k, c[k])
  }

  ghost predicate Order(c: Carrier, ks: seq<string>) { Enumerates(ks, c.Keys) }

  // ---------- What one key contributes ----------

  function LastTags(cfg: Config, hs: seq<Header>): Option<map<string, string>> {
    if hs == [] then None
    else
      var x := SetsTags(cfg, ToLower(hs[|hs| - 1].key), hs[|hs| - 1].value);
      if x.Some? then x else LastTags(cfg, hs[..|hs| - 1])
  }

  predicate AnyErases(cfg: Config, hs: seq<Header>) {
    exists i :: 0 <= i < |hs| && Erases(cfg, ToLower(hs[i].key), hs[i].value)
  }

  function KeySets(cfg: Config, c: Carrier, k: string, slot: Slot): Option<Value>
    requires k in c
  {
    Final(cfg, LinesOf(k, c[k]), slot)
  }

  function KeyTags(cfg: Config, c: Carrier, k: string): Option<map<string, string>>
    requires k in c
  {
    LastTags(cfg, LinesOf(k, c[k]))
  }

  predicate KeyErases(cfg: Config, c: Carrier, k: string)
    requires k in c
  {
    AnyErases(cfg, LinesOf(k, c[k]))
  }

  predicate KeyParses(cfg: Config, c: Carrier, k: string)
    requires k in c
  {
    forall i :: 0 <= i < |c[k]| ==> Parses(cfg, ToLower(k), c[k][i])
  }

  // ---------- The condition ----------

  /** Some value does not parse: every order ends in the same error. */
  ghost predicate Broken(cfg: Config, c: Carrier) { exists k :: k in c && !KeyParses(cfg, c, k) }

  /** Some order finds a trace: a nonzero trace ID, with a nonzero parent or a synthetics origin. */
  ghost predicate Identified(cfg: Config, c: Carrier) {
    && (exists k :: k in c && IdIn(KeySets(cfg, c, k, TraceSlot)) != 0)
    && (exists k :: k in c && Completes(cfg, c, k))
  }

  predicate Completes(cfg: Config, c: Carrier, k: string)
    requires k in c
  {
    IdIn(KeySets(cfg, c, k, ParentSlot)) != 0 || KeySets(cfg, c, k, OriginSlot) == Some(Text("synthetics"))
  }

  ghost predicate SlotAgrees(cfg: Config, c: Carrier, slot: Slot) {
    forall k1, k2 :: k1 in c && k2 in c && KeySets(cfg, c, k1, slot).Some? && KeySets(cfg, c, k2, slot).Some? ==>
      KeySets(cfg, c, k1, slot) == KeySets(cfg, c, k2, slot)
  }

  ghost predicate TagsAgreed(cfg: Config, c: Carrier) {
    forall k1, k2 :: k1 in c && k2 in c && KeyTags(cfg, c, k1).Some? && KeyTags(cfg, c, k2).Some? ==>
      KeyTags(cfg, c, k1) == KeyTags(cfg, c, k2)
  }

  /** A nonpositive priority, repeated or not, stands against tags that name a decision maker. */
  ghost predicate Conflict(cfg: Config, c: Carrier) {
    exists k1, k2 :: k1 in c && k2 in c && KeyErases(cfg, c, k1)
      && KeyTags(cfg, c, k2).Some? && KEY_DECISION_MAKER in KeyTags(cfg, c, k2).value
  }

  /** Keys for the same thing end with the same value, and no priority can take a decision maker away. */
  ghost predicate Agreed(cfg: Config, c: Carrier) {
    (forall slot :: SlotAgrees(cfg, c, slot)) && TagsAgreed(cfg, c) && !Conflict(cfg, c)
  }

  // ---------- Appending the lines of a key ----------

  lemma {:induction false} FinalAppend(cfg: Config, xs: seq<Header>, ys: seq<Header>, slot: Slot)
    ensures Final(cfg, xs + ys, slot) == if Final(cfg, ys, slot).Some? then Final(cfg, ys, slot) else Final(cfg, xs, slot)
    decreases |ys|
  {
    hide Sets, ToLower;
    if ys == [] {
      assert xs + ys == xs;
    } else {
      assert (xs + ys)[..|xs + ys| - 1] == xs + ys[..|ys| - 1];
      FinalAppend(cfg, xs, ys[..|ys| - 1], slot);
    }
  }

  /** The lines of one key either set tags, or erase, or do neither. */
  lemma {:induction false} TagsAppend(cfg: Config, xs: seq<Header>, k: string, values: seq<string>)
    ensures var ys := LinesOf(k, values);
      FinalTags(cfg, xs + ys) ==
        if LastTags(cfg, ys).Some? then LastTags(cfg, ys).value
        else if AnyErases(cfg, ys) then FinalTags(cfg, xs) - {KEY_DECISION_MAKER}
        else FinalTags(cfg, xs)
    decreases |values|
  {
    hide ToLower, SetsTags, Erases, FinalTags;
    if values == [] {
      assert xs + LinesOf(k, values) == xs;
    } else {
      var n := |values| - 1;
      var front, h := LinesOf(k, values[..n]), Header(k, values[n]);
      LineSnoc(xs, k, values);
      TagsAppend(cfg, xs, k, values[..n]);
      FinalTagsSnoc(cfg, xs + front, h);
      LastTagsSnoc(cfg, front, h);
      ErasesSnoc(cfg, front, h);
      if Erases(cfg, ToLower(k), values[n]) {
        ErasersSetNoTags(cfg, k, values[..n]);
      }
      hide LinesOf, LastTags, AnyErases;
      RemoveTwice(FinalTags(cfg, xs));
    }
  }

  lemma RemoveTwice(m: map<string, string>)
    ensures m - {KEY_DECISION_MAKER} - {KEY_DECISION_MAKER} == m - {KEY_DECISION_MAKER}
  {
  }

  lemma LineSnoc(xs: seq<Header>, k: string, values: seq<string>)
    requires values != []
    ensures var n := |values| - 1;
      && LinesOf(k, values) == LinesOf(k, values[..n]) + [Header(k, values[n])]
      && xs + LinesOf(k, values) == (xs + LinesOf(k, values[..n])) + [Header(k, values[n])]
  {
  }

  lemma LastTagsSnoc(cfg: Config, hs: seq<Header>, h: Header)
    ensures var x := SetsTags(cfg, ToLower(h.key), h.value);
      LastTags(cfg, hs + [h]) == if x.Some? then x else LastTags(cfg, hs)
  {
    assert (hs + [h])[..|hs|] == hs;
  }

  lemma ErasesSnoc(cfg: Config, hs: seq<Header>, h: Header)
    ensures AnyErases(cfg, hs + [h]) <==> AnyErases(cfg, hs) || Erases(cfg, ToLower(h.key), h.value)
  {
    hide ToLower, Erases;
    var all := hs + [h];
    assert forall i :: 0 <= i < |hs| ==> all[i] == hs[i];
    assert all[|hs|] == h;
    if AnyErases(cfg, hs) {
      var i :| 0 <= i < |hs| && Erases(cfg, ToLower(hs[i].key), hs[i].value);
      assert Erases(cfg, ToLower(all[i].key), all[i].value);
    }
  }

  lemma {:induction false} ErasersSetNoTags(cfg: Config, k: string, values: seq<string>)
    requires ClassOf(cfg, ToLower(k)) == PriorityOf || exists v :: Erases(cfg, ToLower(k), v)
    ensures LastTags(cfg, LinesOf(k, values)) == None
    decreases |values|
  {
    hide ToLower, ParseInt, ClassOf;
    if values != [] {
      var n := |values| - 1;
      assert LinesOf(k, values)[..n] == LinesOf(k, values[..n]);
      ErasersSetNoTags(cfg, k, values[..n]);
    }
  }

  lemma LinesSnoc(c: Carrier, ks: seq<string>, k: string)
    requires k in c && forall x :: x in ks ==> x in c
    ensures Lines(c, ks + [k]) == Lines(c, ks) + LinesOf(k, c[k])
  {
    assert (ks + [k])[..|ks|] == ks;
  }

  /** The last key to write a slot decides it. */
  lemma {:induction false} FinalOfKeys(cfg: Config, c: Carrier, ks: seq<string>, slot: Slot)
    requires forall k :: k in ks ==> k in c
    ensures var x := Final(cfg, Lines(c, ks), slot);
      && (x.Some? ==> exists k :: k in ks && KeySets(cfg, c, k, slot) == x)
      && (x.None? ==> forall k :: k in ks ==> KeySets(cfg, c, k, slot).None?)
    decreases |ks|
  {
    hide Final, LinesOf;
    if ks == [] {
      NothingFinal(cfg, slot);
    } else {
      var front, k := ks[..|ks| - 1], ks[|ks| - 1];
      assert ks == front + [k];
      FinalOfKeys(cfg, c, front, slot);
      FinalAppend(cfg, Lines(c, front), LinesOf(k, c[k]), slot);
    }
  }

  lemma NothingFinal(cfg: Config, slot: Slot)
    ensures Final(cfg, [], slot) == None && FinalTags(cfg, []) == map[]
  {
  }

  lemma {:induction false} TagsOfKeys(cfg: Config, c: Carrier, ks: seq<string>, tags: map<string, string>)
    requires forall k :: k in ks ==> k in c
    requires forall k :: k in ks && KeyTags(cfg, c, k).Some? ==> KeyTags(cfg, c, k).value == tags
    requires KEY_DECISION_MAKER in tags ==> forall k :: k in ks ==> !KeyErases(cfg, c, k)
    ensures FinalTags(cfg, Lines(c, ks)) == if exists k :: k in ks && KeyTags(cfg, c, k).Some? then tags else map[]
    decreases |ks|
  {
    hide FinalTags, LinesOf, LastTags, AnyErases;
    if ks == [] {
      NothingFinal(cfg, TraceSlot);
    } else {
      var front, k := ks[..|ks| - 1], ks[|ks| - 1];
      assert ks == front + [k];
      TagsOfKeys(cfg, c, front, tags);
      TagsAppend(cfg, Lines(c, front), k, c[k]);
      assert KEY_DECISION_MAKER !in tags ==> tags - {KEY_DECISION_MAKER} == tags;
      var none: map<string, string> := map[];
      assert none - {KEY_DECISION_MAKER} == none;
      assert k in ks && forall x :: x in ks <==> x in front || x == k;
      LinesSnoc(c, front, k);
      assert Lines(c, ks) == Lines(c, front) + LinesOf(k, c[k]);
    }
  }

  lemma {:induction false} CorruptOfKeys(cfg: Config, c: Carrier, ks: seq<string>)
    requires forall k :: k in ks ==> k in c
    ensures Corrupt(cfg, Lines(c, ks)) <==> exists k :: k in ks && !KeyParses(cfg, c, k)
    decreases |ks|
  {
    hide Corrupt, LinesOf, KeyParses;
    if ks == [] {
      NothingCorrupt(cfg);
    } else {
      var front, k := ks[..|ks| - 1], ks[|ks| - 1];
      assert ks == front + [k];
      CorruptOfKeys(cfg, c, front);
      CorruptAppend(cfg, Lines(c, front), LinesOf(k, c[k]));
      CorruptKey(cfg, c, k);
      assert k in ks && forall x :: x in ks <==> x in front || x == k;
      if x :| x in front && !KeyParses(cfg, c, x) {
        assert x in ks;
      }
    }
  }

  lemma NothingCorrupt(cfg: Config)
    ensures !Corrupt(cfg, [])
  {
  }

  lemma CorruptKey(cfg: Config, c: Carrier, k: string)
    requires k in c
    ensures Corrupt(cfg, LinesOf(k, c[k])) <==> !KeyParses(cfg, c, k)
  {
    hide Parses, ToLower;
    CorruptLines(cfg, k, c[k]);
  }

  lemma CorruptAppend(cfg: Config, xs: seq<Header>, ys: seq<Header>)
    ensures Corrupt(cfg, xs + ys) <==> Corrupt(cfg, xs) || Corrupt(cfg, ys)
  {
    hide Parses, ToLower;
    var all := xs + ys;
    assert forall i :: 0 <= i < |xs| ==> all[i] == xs[i];
    assert forall i :: 0 <= i < |ys| ==> all[|xs| + i] == ys[i];
    if Corrupt(cfg, all) {
      var i :| 0 <= i < |all| && !Parses(cfg, ToLower(all[i].key), all[i].value);
      if i >= |xs| {
        assert ys[i - |xs|] == all[i];
      }
    }
  }

  lemma CorruptLines(cfg: Config, k: string, values: seq<string>)
    ensures Corrupt(cfg, LinesOf(k, values)) <==> exists i :: 0 <= i < |values| && !Parses(cfg, ToLower(k), values[i])
  {
    hide Parses, ToLower;
    var hs := LinesOf(k, values);
    assert forall i :: 0 <= i < |hs| ==> hs[i].key == k && hs[i].value == values[i];
  }

  // ---------- Orders ----------

  lemma {:induction false} ListSet(s: set<string>) returns (xs: seq<string>)
    ensures Enumerates(xs, s)
    decreases |s|
  {
    if s == {} {
      xs := [];
    } else {
      var x :| x in s;
      var rest := ListSet(s - {x});
      xs := rest + [x];
    }
  }

  /** There is an order that ends as one likes. */
  lemma OrderEnding(c: Carrier, tail: seq<string>) returns (front: seq<string>)
    requires Distinct(tail) && forall k :: k in tail ==> k in c
    ensures Order(c, front + tail)
  {
    front := ListSet(c.Keys - (set k | k in tail));
    var ks := front + tail;
    forall i, j | 0 <= i < j < |ks| ensures ks[i] != ks[j] {
      assert i < |front| ==> front[i] in front;
      assert j >= |front| ==> tail[j - |front|] in tail;
      if i >= |front| {
        assert ks[i] == tail[i - |front|] && ks[j] == tail[j - |front|];
      }
    }
  }

  lemma OrderKeys(c: Carrier, ks: seq<string>)
    requires Order(c, ks)
    ensures forall k :: k in ks <==> k in c
  {
  }

  ghost predicate SameInAllOrders(cfg: Config, c: Carrier) {
    forall ks1, ks2 :: Order(c, ks1) && Order(c, ks2) ==>
      (forall k :: k in ks1 || k in ks2 ==> k in c) && Extract(cfg, Lines(c, ks1)) == Extract(cfg, Lines(c, ks2))
  }

  // ---------- Agreement is enough ----------

  lemma AgreedSlots(cfg: Config, c: Carrier, ks1: seq<string>, ks2: seq<string>, slot: Slot)
    requires Order(c, ks1) && Order(c, ks2) && SlotAgrees(cfg, c, slot)
    ensures forall k :: k in ks1 || k in ks2 ==> k in c
    ensures Final(cfg, Lines(c, ks1), slot) == Final(cfg, Lines(c, ks2), slot)
  {
    hide Final, Lines, LinesOf, Order, KeySets;
    OrderKeys(c, ks1);
    OrderKeys(c, ks2);
    FinalOfKeys(cfg, c, ks1, slot);
    FinalOfKeys(cfg, c, ks2, slot);
  }

  lemma AgreedTags(cfg: Config, c: Carrier, ks1: seq<string>, ks2: seq<string>)
    requires Order(c, ks1) && Order(c, ks2) && TagsAgreed(cfg, c) && !Conflict(cfg, c)
    ensures forall k :: k in ks1 || k in ks2 ==> k in c
    ensures FinalTags(cfg, Lines(c, ks1)) == FinalTags(cfg, Lines(c, ks2))
  {
    hide FinalTags, Lines, KeyTags, KeyErases, Order;
    OrderKeys(c, ks1);
    OrderKeys(c, ks2);
    var tags := if x :| x in c && KeyTags(cfg, c, x).Some? then KeyTags(cfg, c, x).value else map[];
    TagsOfKeys(cfg, c, ks1, tags);
    TagsOfKeys(cfg, c, ks2, tags);
  }

  lemma NeverFound(cfg: Config, c: Carrier, ks: seq<string>)
    requires Order(c, ks) && !Identified(cfg, c) && !Broken(cfg, c)
    ensures (forall k :: k in ks ==> k in c) && Extract(cfg, Lines(c, ks)) == NotFound
  {
    hide Final, Lines, KeyParses, Order, LinesOf, TraceSaid, BaggageSays, Identified;
    OrderKeys(c, ks);
    CorruptOfKeys(cfg, c, ks);
    var hs := Lines(c, ks);
    ReadAllMeans(cfg, hs);
    if IdIn(Final(cfg, hs, TraceSlot)) != 0
       && (IdIn(Final(cfg, hs, ParentSlot)) != 0 || TextIn(Final(cfg, hs, OriginSlot)) == "synthetics") {
      FoundIsIdentified(cfg, c, ks);
    }
  }

  lemma FoundIsIdentified(cfg: Config, c: Carrier, ks: seq<string>)
    requires forall k :: k in ks ==> k in c
    requires IdIn(Final(cfg, Lines(c, ks), TraceSlot)) != 0
    requires IdIn(Final(cfg, Lines(c, ks), ParentSlot)) != 0 || TextIn(Final(cfg, Lines(c, ks), OriginSlot)) == "synthetics"
    ensures Identified(cfg, c)
  {
    hide Final, Lines, KeySets;
    var hs := Lines(c, ks);
    FinalShape(cfg, hs);
    FinalOfKeys(cfg, c, ks, TraceSlot);
    FinalOfKeys(cfg, c, ks, ParentSlot);
    FinalOfKeys(cfg, c, ks, OriginSlot);
    var kt :| kt in ks && KeySets(cfg, c, kt, TraceSlot) == Final(cfg, hs, TraceSlot);
    if IdIn(Final(cfg, hs, ParentSlot)) != 0 {
      var k :| k in ks && KeySets(cfg, c, k, ParentSlot) == Final(cfg, hs, ParentSlot);
      assert Completes(cfg, c, k);
    } else {
      assert Final(cfg, hs, OriginSlot).Some?;
      var k :| k in ks && KeySets(cfg, c, k, OriginSlot) == Final(cfg, hs, OriginSlot);
      assert Completes(cfg, c, k);
    }
  }

  /** The kind of value each slot holds. */
  lemma FinalShape(cfg: Config, hs: seq<Header>)
    ensures Final(cfg, hs, TraceSlot).Some? ==> Final(cfg, hs, TraceSlot).value.Id?
    ensures Final(cfg, hs, ParentSlot).Some? ==> Final(cfg, hs, ParentSlot).value.Id?
    ensures Final(cfg, hs, PrioritySlot).Some? ==> Final(cfg, hs, PrioritySlot).value.Level?
    ensures Final(cfg, hs, OriginSlot).Some? ==> Final(cfg, hs, OriginSlot).value.Text?
    ensures Final(cfg, hs, ErrorSlot).Some? ==> Final(cfg, hs, ErrorSlot).value.Text?
  {
    hide Final, ParseId, ParseInt, Parse, ToLower, ClassOf;
    FinalFrom(cfg, hs, TraceSlot);
    FinalFrom(cfg, hs, ParentSlot);
    FinalFrom(cfg, hs, PrioritySlot);
    FinalFrom(cfg, hs, OriginSlot);
    FinalFrom(cfg, hs, ErrorSlot);
  }

  lemma AgreementSuffices(cfg: Config, c: Carrier, ks1: seq<string>, ks2: seq<string>)
    requires Order(c, ks1) && Order(c, ks2) && (Broken(cfg, c) || !Identified(cfg, c) || Agreed(cfg, c))
    ensures (forall k :: k in ks1 || k in ks2 ==> k in c) && Extract(cfg, Lines(c, ks1)) == Extract(cfg, Lines(c, ks2))
  {
    hide Lines, KeyParses, Order, Says, Identified, SlotAgrees, TagsAgreed, Conflict, ReadAll, Final, FinalTags, Corrupt;
    OrderKeys(c, ks1);
    OrderKeys(c, ks2);
    CorruptOfKeys(cfg, c, ks1);
    CorruptOfKeys(cfg, c, ks2);
    ReadAllMeans(cfg, Lines(c, ks1));
    ReadAllMeans(cfg, Lines(c, ks2));
    if !Broken(cfg, c) {
      if !Identified(cfg, c) {
        NeverFound(cfg, c, ks1);
        NeverFound(cfg, c, ks2);
      } else {
        forall slot ensures Final(cfg, Lines(c, ks1), slot) == Final(cfg, Lines(c, ks2), slot) {
          AgreedSlots(cfg, c, ks1, ks2, slot);
        }
        AgreedTags(cfg, c, ks1, ks2);
        SaysOnce(cfg, Lines(c, ks1), Lines(c, ks2), ReadAll(cfg, Lines(c, ks1)).value, ReadAll(cfg, Lines(c, ks2)).value);
      }
    }
  }

  // ---------- Agreement is needed ----------

  /** The result of an order, when every order gives `ctx`. */
  lemma OrderSays(cfg: Config, c: Carrier, ctx: Context, ks: seq<string>)
    requires Order(c, ks)
    requires forall k :: k in ks ==> k in c
    requires Extract(cfg, Lines(c, ks)) == Extracted(ctx)
    ensures Says(cfg, Lines(c, ks), ctx)
  {
    hide Lines, Says;
    ReadAllMeans(cfg, Lines(c, ks));
  }

  lemma EndsWith(cfg: Config, c: Carrier, front: seq<string>, k: string)
    requires Order(c, front + [k])
    ensures forall x :: x in front + [k] ==> x in c
    ensures forall slot :: KeySets(cfg, c, k, slot).Some? ==> Final(cfg, Lines(c, front + [k]), slot) == KeySets(cfg, c, k, slot)
    ensures KeyTags(cfg, c, k).Some? ==> FinalTags(cfg, Lines(c, front + [k])) == KeyTags(cfg, c, k).value
    ensures (forall x :: x in front ==> x in c)
    ensures KeyTags(cfg, c, k).None? && KeyErases(cfg, c, k) ==>
      FinalTags(cfg, Lines(c, front + [k])) == FinalTags(cfg, Lines(c, front)) - {KEY_DECISION_MAKER}
  {
    hide Final, FinalTags, LinesOf, LastTags, AnyErases, Order, Lines;
    OrderKeys(c, front + [k]);
    assert k in front + [k] && forall x :: x in front ==> x in front + [k];
    LinesSnoc(c, front, k);
    TagsAppend(cfg, Lines(c, front), k, c[k]);
    forall slot ensures KeySets(cfg, c, k, slot).Some? ==> Final(cfg, Lines(c, front + [k]), slot) == KeySets(cfg, c, k, slot) {
      FinalAppend(cfg, Lines(c, front), LinesOf(k, c[k]), slot);
    }
  }

  /** Two orders that say the same have the same values in their slots. */
  lemma SaysSlot(cfg: Config, hs: seq<Header>, hs': seq<Header>, ctx: Context, slot: Slot)
    requires Says(cfg, hs, ctx) && Says(cfg, hs', ctx) && Final(cfg, hs, slot).Some? && Final(cfg, hs', slot).Some?
    ensures Final(cfg, hs, slot) == Final(cfg, hs', slot)
  {
    hide Final, FinalTags;
    FinalShape(cfg, hs);
    FinalShape(cfg, hs');
    var x, y := Final(cfg, hs, ErrorSlot), Final(cfg, hs', ErrorSlot);
    if slot == ErrorSlot {
      assert ErrorIn(x)[KEY_PROPAGATION_ERROR] == ErrorIn(y)[KEY_PROPAGATION_ERROR];
    } else if slot.BaggageSlot? {
      assert slot == BaggageSlot(slot.item);
    }
  }

  lemma SaysTags(cfg: Config, hs: seq<Header>, ctx: Context)
    requires Says(cfg, hs, ctx)
    ensures ctx.trace.propagatingTags == FinalTags(cfg, hs)
  {
    hide Final, FinalTags, BaggageSays;
  }

  ghost predicate AlwaysSays(cfg: Config, c: Carrier, ctx: Context) {
    forall ks :: Order(c, ks) ==> (forall k :: k in ks ==> k in c) && Says(cfg, Lines(c, ks), ctx)
  }

  lemma SlotsMustAgree(cfg: Config, c: Carrier, ctx: Context, slot: Slot, k1: string, k2: string)
    requires AlwaysSays(cfg, c, ctx) && k1 in c && k2 in c
    requires KeySets(cfg, c, k1, slot).Some? && KeySets(cfg, c, k2, slot).Some?
    ensures KeySets(cfg, c, k1, slot) == KeySets(cfg, c, k2, slot)
  {
    hide Says, Final, Lines, KeySets, Order;
    var f1 := OrderEnding(c, [k1]);
    var f2 := OrderEnding(c, [k2]);
    EndsWith(cfg, c, f1, k1);
    EndsWith(cfg, c, f2, k2);
    SaysSlot(cfg, Lines(c, f1 + [k1]), Lines(c, f2 + [k2]), ctx, slot);
  }

  lemma TagsMustAgree(cfg: Config, c: Carrier, ctx: Context, k: string)
    requires AlwaysSays(cfg, c, ctx) && k in c && KeyTags(cfg, c, k).Some?
    ensures KeyTags(cfg, c, k).value == ctx.trace.propagatingTags
  {
    hide Says, FinalTags, Lines, KeyTags, Order;
    var f := OrderEnding(c, [k]);
    EndsWith(cfg, c, f, k);
    SaysTags(cfg, Lines(c, f + [k]), ctx);
  }

  lemma EraserMustNotMatter(cfg: Config, c: Carrier, ctx: Context, eraser: string, k: string)
    requires AlwaysSays(cfg, c, ctx) && k in c && eraser in c && KeyErases(cfg, c, eraser) && KeyTags(cfg, c, k).Some?
    ensures KEY_DECISION_MAKER !in KeyTags(cfg, c, k).value
  {
    hide Says, FinalTags, Lines, KeyTags, KeyErases, Order;
    EraserSetsNoTags(cfg, c, eraser);
    var f := OrderEnding(c, [k, eraser]);
    assert f + [k, eraser] == (f + [k]) + [eraser];
    EndsWith(cfg, c, f + [k], eraser);
    TagsMustAgree(cfg, c, ctx, k);
    SaysTags(cfg, Lines(c, f + [k] + [eraser]), ctx);
  }

  lemma EraserSetsNoTags(cfg: Config, c: Carrier, k: string)
    requires k in c && KeyErases(cfg, c, k)
    ensures KeyTags(cfg, c, k) == None
  {
    hide ToLower, ParseInt, ClassOf, LastTags;
    var hs := LinesOf(k, c[k]);
    var i :| 0 <= i < |hs| && Erases(cfg, ToLower(hs[i].key), hs[i].value);
    assert hs[i].key == k;
    ErasersSetNoTags(cfg, k, c[k]);
  }

  /** Some order finds the trace. */
  lemma FoundInSomeOrder(cfg: Config, c: Carrier) returns (ks: seq<string>)
    requires !Broken(cfg, c) && Identified(cfg, c)
    ensures Order(c, ks) && (forall k :: k in ks ==> k in c) && Extract(cfg, Lines(c, ks)).Extracted?
  {
    hide Final, Lines, KeyParses, Order, LinesOf, TraceSaid, BaggageSays;
    var kt :| kt in c && IdIn(KeySets(cfg, c, kt, TraceSlot)) != 0;
    var kx :| kx in c && Completes(cfg, c, kx);
    OneSlotEach(cfg, c, kx);
    var f := OrderEnding(c, [kt, kx]);
    assert f + [kt, kx] == (f + [kt]) + [kx];
    ks := f + [kt] + [kx];
    EndsWith(cfg, c, f + [kt], kx);
    LinesSnoc(c, f + [kt], kx);
    LinesSnoc(c, f, kt);
    FinalAppend(cfg, Lines(c, f + [kt]), LinesOf(kx, c[kx]), TraceSlot);
    FinalAppend(cfg, Lines(c, f), LinesOf(kt, c[kt]), TraceSlot);
    CorruptOfKeys(cfg, c, ks);
    ReadAllMeans(cfg, Lines(c, ks));
  }

  /** A key that gives a parent or an origin gives no trace ID. */
  lemma OneSlotEach(cfg: Config, c: Carrier, k: string)
    requires k in c && (KeySets(cfg, c, k, ParentSlot).Some? || KeySets(cfg, c, k, OriginSlot).Some?)
    ensures KeySets(cfg, c, k, TraceSlot) == None
  {
    hide Final, ToLower, ParseId, ParseInt, ClassOf, TagsError;
    var hs := LinesOf(k, c[k]);
    assert forall i :: 0 <= i < |hs| ==> hs[i].key == k;
    FinalFrom(cfg, hs, TraceSlot);
    FinalFrom(cfg, hs, ParentSlot);
    FinalFrom(cfg, hs, OriginSlot);
  }

  lemma AgreementIsNeeded(cfg: Config, c: Carrier)
    requires SameInAllOrders(cfg, c) && !Broken(cfg, c) && Identified(cfg, c)
    ensures Agreed(cfg, c)
  {
    hide Extract, Lines, Order, Says, Broken, Identified, KeySets, KeyTags, KeyErases;
    var ks0 := FoundInSomeOrder(cfg, c);
    var ctx := Extract(cfg, Lines(c, ks0)).context;
    forall ks | Order(c, ks) ensures (forall k :: k in ks ==> k in c) && Says(cfg, Lines(c, ks), ctx) {
      OrderKeys(c, ks);
      OrderSays(cfg, c, ctx, ks);
    }
    assert AlwaysSays(cfg, c, ctx);
    hide AlwaysSays, SameInAllOrders;
    forall slot, k1, k2 | k1 in c && k2 in c && KeySets(cfg, c, k1, slot).Some? && KeySets(cfg, c, k2, slot).Some?
      ensures KeySets(cfg, c, k1, slot) == KeySets(cfg, c, k2, slot)
    {
      SlotsMustAgree(cfg, c, ctx, slot, k1, k2);
    }
    forall k | k in c && KeyTags(cfg, c, k).Some? ensures KeyTags(cfg, c, k).value == ctx.trace.propagatingTags {
      TagsMustAgree(cfg, c, ctx, k);
    }
    forall k1, k2 | k1 in c && k2 in c && KeyErases(cfg, c, k1) && KeyTags(cfg, c, k2).Some?
      ensures KEY_DECISION_MAKER !in KeyTags(cfg, c, k2).value
    {
      EraserMustNotMatter(cfg, c, ctx, k1, k2);
    }
  }

  /**
   Extraction gives one result for all orders of the keys if and only if some value does not parse,
   or no order finds a trace, or the keys agree: those for the same thing end with the same value,
   and there is no nonpositive priority, not even an overridden one, beside tags that name a maker.
   */
  lemma OrderIndependentExactly(cfg: Config, c: Carrier)
    ensures SameInAllOrders(cfg, c) <==> Broken(cfg, c) || !Identified(cfg, c) || Agreed(cfg, c)
  {
    hide Extract, Lines, Order, Broken, Identified, Agreed;
    if Broken(cfg, c) || !Identified(cfg, c) || Agreed(cfg, c) {
      forall ks1, ks2 | Order(c, ks1) && Order(c, ks2)
        ensures (forall k :: k in ks1 || k in ks2 ==> k in c) && Extract(cfg, Lines(c, ks1)) == Extract(cfg, Lines(c, ks2))
      {
        AgreementSuffices(cfg, c, ks1, ks2);
      }
    } else if SameInAllOrders(cfg, c) {
      AgreementIsNeeded(cfg, c);
    }
  }

  // ---------- Carriers without and with repeated names ----------

  lemma OneNameEach(cfg: Config, slot: Slot, n1: string, v1: string, n2: string, v2: string)
    requires Sets(cfg, n1, v1, slot).Some? && Sets(cfg, n2, v2, slot).Some?
    ensures n1 == n2
  {
    hide ParseId, ParseInt, TagsError;
    if slot.BaggageSlot? {
      assert n1 == cfg.baggagePrefix + slot.item && n2 == cfg.baggagePrefix + slot.item;
    }
  }

  lemma KeySetsBy(cfg: Config, c: Carrier, k: string, slot: Slot) returns (v: string)
    requires k in c && KeySets(cfg, c, k, slot).Some?
    ensures Sets(cfg, ToLower(k), v, slot).Some?
  {
    hide Final, ToLower, Sets;
    var hs := LinesOf(k, c[k]);
    FinalFrom(cfg, hs, slot);
    var i :| 0 <= i < |hs| && Sets(cfg, ToLower(hs[i].key), hs[i].value, slot) == Final(cfg, hs, slot);
    v := hs[i].value;
  }

  lemma {:induction false} KeyTagsBy(cfg: Config, k: string, values: seq<string>)
    ensures LastTags(cfg, LinesOf(k, values)).Some? ==> ToLower(k) == TAGS_HEADER
    decreases |values|
  {
    hide ToLower;
    if values != [] {
      var n := |values| - 1;
      LineSnoc([], k, values);
      LastTagsSnoc(cfg, LinesOf(k, values[..n]), Header(k, values[n]));
      KeyTagsBy(cfg, k, values[..n]);
    }
  }

  /** When no name is repeated, the one thing that can matter is a nonpositive priority beside tags that name a maker. */
  lemma DistinctNamesAgree(cfg: Config, c: Carrier)
    requires forall k1, k2 :: k1 in c && k2 in c && k1 != k2 ==> ToLower(k1) != ToLower(k2)
    ensures Agreed(cfg, c) <==> !Conflict(cfg, c)
  {
    hide ToLower, KeySets, KeyErases, Sets;
    forall slot, k1, k2 | k1 in c && k2 in c && KeySets(cfg, c, k1, slot).Some? && KeySets(cfg, c, k2, slot).Some?
      ensures KeySets(cfg, c, k1, slot) == KeySets(cfg, c, k2, slot)
    {
      var v1 := KeySetsBy(cfg, c, k1, slot);
      var v2 := KeySetsBy(cfg, c, k2, slot);
      OneNameEach(cfg, slot, ToLower(k1), v1, ToLower(k2), v2);
    }
    forall k1, k2 | k1 in c && k2 in c && KeyTags(cfg, c, k1).Some? && KeyTags(cfg, c, k2).Some?
      ensures KeyTags(cfg, c, k1) == KeyTags(cfg, c, k2)
    {
      KeyTagsBy(cfg, k1, c[k1]);
      KeyTagsBy(cfg, k2, c[k2]);
    }
  }

  lemma SmallNumbers()
    ensures ParseId("1") == Some(1) && ParseId("2") == Some(2) && ParseInt("0") == Some(0) && ParseInt("1") == Some(1)
  {
    IdRoundTrip(1);
    IdRoundTrip(2);
    ParseIntItoa(0);
    ParseIntItoa(1);
    assert Format(1, 10) == "1" && Format(2, 10) == "2" && Format(0, 10) == "0";
  }

  lemma OneLine(cfg: Config, k: string, v: string, slot: Slot)
    ensures Final(cfg, LinesOf(k, [v]), slot) == Sets(cfg, ToLower(k), v, slot)
    ensures LastTags(cfg, LinesOf(k, [v])) == SetsTags(cfg, ToLower(k), v)
  {
    hide ToLower, Sets, SetsTags;
    var hs := LinesOf(k, [v]);
    assert hs == [] + [Header(k, v)];
    FinalSnoc(cfg, [], Header(k, v), slot);
    LastTagsSnoc(cfg, [], Header(k, v));
    NothingFinal(cfg, slot);
  }

  /** A carrier with these values under keys of these classes, and nothing else. */
  ghost predicate Holds(cfg: Config, c: Carrier, entries: seq<(string, Class, seq<string>)>) {
    && (forall i :: 0 <= i < |entries| ==>
          entries[i].0 in c && c[entries[i].0] == entries[i].2 && ClassOf(cfg, ToLower(entries[i].0)) == entries[i].1)
    && (forall k :: k in c ==> exists i :: 0 <= i < |entries| && entries[i].0 == k)
  }

  /** IDs of a trace and its parent, and all values readable. */
  lemma ReadableTrace(cfg: Config, c: Carrier, t: string, p: string)
    requires t in c && c[t] == ["1"] && ClassOf(cfg, ToLower(t)) == TraceIdOf
    requires p in c && c[p] == ["1"] && ClassOf(cfg, ToLower(p)) == ParentIdOf
    requires forall k :: k in c ==> KeyParses(cfg, c, k)
    ensures Identified(cfg, c) && !Broken(cfg, c)
  {
    hide ClassOf, ToLower, ParseId, Final, LinesOf, KeyParses;
    SmallNumbers();
    OneLine(cfg, t, "1", TraceSlot);
    OneLine(cfg, p, "1", ParentSlot);
    assert Completes(cfg, c, p);
  }

  lemma OneValueParses(cfg: Config, c: Carrier, k: string)
    requires k in c && |c[k]| == 1 && Parses(cfg, ToLower(k), c[k][0])
    ensures KeyParses(cfg, c, k)
  {
  }

  lemma OverrideErases(cfg: Config, c: Carrier, q: string)
    requires q in c && c[q] == ["0", "1"] && ClassOf(cfg, ToLower(q)) == PriorityOf
    ensures KeyErases(cfg, c, q) && KeyParses(cfg, c, q) && KeySets(cfg, c, q, PrioritySlot) == Some(Level(1))
  {
    hide ClassOf, ToLower, ParseInt;
    SmallNumbers();
    assert LinesOf(q, c[q])[0] == Header(q, "0");
    FinalSnoc(cfg, LinesOf(q, ["0"]), Header(q, "1"), PrioritySlot);
    assert LinesOf(q, c[q]) == LinesOf(q, ["0"]) + [Header(q, "1")];
  }

  /**
   A priority sent twice, the second time positive, with tags that name a decision maker: the
   priority ends positive in every order, and still the order matters, because the maker survives
   only if the tags come after the overridden priority.
   */
  lemma OverriddenPriorityMatters(cfg: Config, c: Carrier, t: string, p: string, q: string, g: string, tags: string)
    requires Holds(cfg, c, [(t, TraceIdOf, ["1"]), (p, ParentIdOf, ["1"]), (q, PriorityOf, ["0", "1"]), (g, TagsOf, [tags])])
    requires |tags| <= EXTRACT_MAX_SIZE && Parse(tags).Some? && KEY_DECISION_MAKER in Parse(tags).value
    ensures !SameInAllOrders(cfg, c)
    ensures q in c && KeySets(cfg, c, q, PrioritySlot) == Some(Level(1))
  {
    hide ClassOf, ToLower, ParseId, ParseInt, Parse, LinesOf, Final, SameInAllOrders;
    var es := [(t, TraceIdOf, ["1"]), (p, ParentIdOf, ["1"]), (q, PriorityOf, ["0", "1"]), (g, TagsOf, [tags])];
    assert es[0].0 == t && es[1].0 == p && es[2].0 == q && es[3].0 == g;
    assert forall k :: k in c ==> k == t || k == p || k == q || k == g;
    hide Holds;
    SmallNumbers();
    OverrideErases(cfg, c, q);
    OneValueParses(cfg, c, t);
    OneValueParses(cfg, c, p);
    OneValueParses(cfg, c, g);
    ReadableTrace(cfg, c, t, p);
    OneLine(cfg, g, tags, ErrorSlot);
    assert Conflict(cfg, c);
    hide Conflict, Broken, Identified;
    OrderIndependentExactly(cfg, c);
  }

  /** Two keys that differ in letter case only, with different trace IDs. */
  lemma CaseVariantsMatter(cfg: Config, c: Carrier, k1: string, k2: string, p: string)
    requires Holds(cfg, c, [(k1, TraceIdOf, ["1"]), (k2, TraceIdOf, ["2"]), (p, ParentIdOf, ["1"])])
    ensures !SameInAllOrders(cfg, c)
  {
    hide ClassOf, ToLower, ParseId, ParseInt, LinesOf, Final, SameInAllOrders;
    var es := [(k1, TraceIdOf, ["1"]), (k2, TraceIdOf, ["2"]), (p, ParentIdOf, ["1"])];
    assert es[0].0 == k1 && es[1].0 == k2 && es[2].0 == p;
    assert forall k :: k in c ==> k == k1 || k == k2 || k == p;
    hide Holds;
    SmallNumbers();
    OneValueParses(cfg, c, k1);
    OneValueParses(cfg, c, k2);
    OneValueParses(cfg, c, p);
    ReadableTrace(cfg, c, k1, p);
    OneLine(cfg, k1, "1", TraceSlot);
    OneLine(cfg, k2, "2", TraceSlot);
    assert !SlotAgrees(cfg, c, TraceSlot);
    hide SlotAgrees, Broken, Identified;
    OrderIndependentExactly(cfg, c);
  }
}
