/**
 The x-datadog-tags header: marshalPropagatingTags (ddtrace/tracer/textmap.go) writes it from a
 map read in any order, parsePropagatableTraceTags (ddtrace/tracer/util.go) reads it.
 Strings are byte strings: the separators are ASCII, so scanning bytes and scanning runes agree.
 */
module TagHeader {
  import opened Common

  datatype Item = Item(key: string, value: string)

  predicate ValidKeyChar(c: char) { 32 < c as int <= 126 && c != '=' && c != ',' }
  predicate ValidValueChar(c: char) { 32 <= c as int <= 126 && c != '=' && c != ',' }

  predicate ValidTag(k: string, v: string) {
    && |k| > 0 && (forall i :: 0 <= i < |k| ==> ValidKeyChar(k[i]))
    && |v| > 0 && (forall i :: 0 <= i < |v| ==> ValidValueChar(v[i]))
  }

  function ValidPart(m: map<string, string>): map<string, string> {
    map k | k in m && ValidTag(k, m[k]) :: m[k]
  }

  /** Valid is nonempty, printable ASCII without the two separators, and without spaces in the key. */
  lemma ValidTagExactly(k: string, v: string)
    ensures ValidTag(k, v) <==>
      && k != "" && (forall c :: c in k ==> '!' <= c <= '~' && c !in {'=', ','})
      && v != "" && (forall c :: c in v ==> ' ' <= c <= '~' && c !in {'=', ','})
  {
    assert forall i :: 0 <= i < |k| ==> k[i] in k;
    assert forall i :: 0 <= i < |v| ==> v[i] in v;
  }

  /** isValidPropagatableTag, character by character. */
  method IsValidPropagatableTag(k: string, v: string) returns (ok: bool)
    ensures ok == ValidTag(k, v)
  {
    if |k| == 0 {
      return false;
    }
    for i := 0 to |k|
      invariant forall j :: 0 <= j < i ==> ValidKeyChar(k[j])
    {
      var ch := k[i] as int;
      if ch < 32 || ch > 126 || k[i] == ' ' || k[i] == '=' || k[i] == ',' {
        return false;
      }
    }
    if |v| == 0 {
      return false;
    }
    for i := 0 to |v|
      invariant forall j :: 0 <= j < i ==> ValidValueChar(v[j])
    {
      var ch := v[i] as int;
      if ch < 32 || ch > 126 || v[i] == '=' || v[i] == ',' {
        return false;
      }
    }
    return true;
  }

  // ---------- The grammar ----------

  function RenderItem(x: Item): string { x.key + "=" + x.value }

  function Render(items: seq<Item>): string {
    if items == [] then ""
    else if |items| == 1 then RenderItem(items[0])
    else RenderItem(items[0]) + "," + Render(items[1..])
  }

  /** An item of an acceptable header: the value may contain '=', the key may not. */
  predicate WellFormed(x: Item) {
    && |x.key| > 0 && '=' !in x.key && ',' !in x.key
    && |x.value| > 0 && ',' !in x.value
  }

  /** Later items override earlier ones. */
  function MapOf(items: seq<Item>): map<string, string> {
    if items == [] then map[]
    else MapOf(items[..|items| - 1])[items[|items| - 1].key := items[|items| - 1].value]
  }

  lemma {:induction false} RenderSnoc(items: seq<Item>, x: Item)
    ensures Render(items + [x]) == if items == [] then RenderItem(x) else Render(items) + "," + RenderItem(x)
  {
    if items == [] {
      assert items + [x] == [x];
    } else {
      assert (items + [x])[1..] == items[1..] + [x];
      RenderSnoc(items[1..], x);
      if |items| == 1 {
        assert items[1..] == [];
      }
    }
  }

  // ---------- Reading ----------

  function IndexOf(s: string, c: char): (i: nat)
    ensures i <= |s| && c !in s[..i] && (i < |s| ==> s[i] == c)
  {
    if s == [] || s[0] == c then 0
    else
      assert forall k :: 0 < k <= 1 + IndexOf(s[1..], c) && k <= |s| ==> s[..k] == [s[0]] + s[1..][..k - 1];
      1 + IndexOf(s[1..], c)
  }

  lemma IndexOfUnique(s: string, c: char, i: nat)
    requires i <= |s| && c !in s[..i] && (i < |s| ==> s[i] == c)
    ensures IndexOf(s, c) == i
  {
    var j := IndexOf(s, c);
    assert forall k :: 0 <= k < i ==> s[..i][k] == s[k];
    assert forall k :: 0 <= k < j ==> s[..j][k] == s[k];
  }

  function ItemOf(t: string): Option<Item> {
    var e := IndexOf(t, '=');
    if 0 < e && e + 1 < |t| then Some(Item(t[..e], t[e + 1..])) else None
  }

  /** The comma-separated items of a nonempty header, if all are key=value with both sides nonempty. */
  function ItemsOf(s: string): Option<seq<Item>>
    decreases |s|
  {
    var c := IndexOf(s, ',');
    match ItemOf(s[..c])
    case None => None
    case Some(x) =>
      if c == |s| then Some([x])
      else match ItemsOf(s[c + 1..])
        case None => None
        case Some(rest) => Some([x] + rest)
  }

  function Parse(s: string): Option<map<string, string>> {
    if s == "" then Some(map[])
    else match ItemsOf(s)
      case None => None
      case Some(items) => Some(MapOf(items))
  }

  lemma ItemRoundTrip(x: Item)
    requires WellFormed(x)
    ensures ItemOf(RenderItem(x)) == Some(x) && ',' !in RenderItem(x)
  {
    var t := RenderItem(x);
    assert t[..|x.key|] == x.key && t[|x.key|] == '=' && t[|x.key| + 1..] == x.value;
    IndexOfUnique(t, '=', |x.key|);
  }

  function Prepend(items: seq<Item>, rest: Option<seq<Item>>): Option<seq<Item>> {
    match rest
    case None => None
    case Some(more) => Some(items + more)
  }

  /** What a text reads as, once its first comma (or its end) has been found. */
  lemma ItemsStep(t: string, c: nat)
    requires c <= |t| && ',' !in t[..c] && (c < |t| ==> t[c] == ',')
    ensures ItemOf(t[..c]).None? ==> ItemsOf(t) == None
    ensures ItemOf(t[..c]).Some? && c == |t| ==> ItemsOf(t) == Some([ItemOf(t[..c]).value])
    ensures ItemOf(t[..c]).Some? && c < |t| ==> ItemsOf(t) == Prepend([ItemOf(t[..c]).value], ItemsOf(t[c + 1..]))
  {
    IndexOfUnique(t, ',', c);
  }

  /** Reading a rendered nonempty list of items gives the items back. */
  lemma {:induction false} ItemsRoundTrip(items: seq<Item>)
    requires items != [] && forall x :: x in items ==> WellFormed(x)
    ensures ItemsOf(Render(items)) == Some(items)
  {
    hide ItemsOf, ItemOf, RenderItem, WellFormed;
    var s, t := Render(items), RenderItem(items[0]);
    ItemRoundTrip(items[0]);
    assert s[..|t|] == t;
    ItemsStep(s, |t|);
    if |items| > 1 {
      assert s[|t| + 1..] == Render(items[1..]);
      ItemsRoundTrip(items[1..]);
      assert [items[0]] + items[1..] == items;
    } else {
      assert items == [items[0]];
    }
  }

  lemma ItemsUnfold(s: string) returns (c: nat, x: Item)
    requires ItemsOf(s).Some?
    ensures c <= |s| && ',' !in s[..c] && (c < |s| ==> s[c] == ',') && ItemOf(s[..c]) == Some(x)
    ensures c == |s| ==> ItemsOf(s) == Some([x])
    ensures c < |s| ==> ItemsOf(s[c + 1..]).Some? && ItemsOf(s) == Some([x] + ItemsOf(s[c + 1..]).value)
  {
    c := IndexOf(s, ',');
    x := ItemOf(s[..c]).value;
  }

  /** Whatever the reader accepts is the rendering of the well-formed items it returns. */
  lemma {:induction false} ItemsAreWellFormed(s: string)
    requires ItemsOf(s).Some?
    ensures var items := ItemsOf(s).value;
      items != [] && (forall x :: x in items ==> WellFormed(x)) && Render(items) == s
    decreases |s|
  {
    hide ItemsOf, ItemOf, WellFormed, RenderItem;
    var c, x := ItemsUnfold(s);
    ItemIsWellFormed(s[..c]);
    if c < |s| {
      var rest := ItemsOf(s[c + 1..]).value;
      ItemsAreWellFormed(s[c + 1..]);
      assert ([x] + rest)[1..] == rest;
      assert s == s[..c] + "," + s[c + 1..];
    } else {
      assert s == s[..c];
    }
  }

  lemma ItemIsWellFormed(t: string)
    requires ItemOf(t).Some? && ',' !in t
    ensures WellFormed(ItemOf(t).value) && RenderItem(ItemOf(t).value) == t
  {}

  /** The parser accepts exactly the empty string and comma-separated lists of nonempty key=value items. */
  lemma ParserAcceptsExactly(s: string)
    ensures Parse(s).Some? <==>
      s == "" || exists items :: items != [] && (forall x :: x in items ==> WellFormed(x)) && s == Render(items)
  {
    if s != "" && ItemsOf(s).Some? {
      ItemsAreWellFormed(s);
    }
    if items :| items != [] && (forall x :: x in items ==> WellFormed(x)) && s == Render(items) {
      ItemsRoundTrip(items);
    }
  }

  lemma NoItem(u: string)
    requires '=' !in u || (u != [] && (u[0] == '=' || (u[|u| - 1] == '=' && '=' !in u[..|u| - 1])))
    ensures ItemOf(u) == None
  {
    if '=' !in u {
      assert u[..|u|] == u;
      IndexOfUnique(u, '=', |u|);
    } else if u[0] == '=' {
      IndexOfUnique(u, '=', 0);
    } else {
      IndexOfUnique(u, '=', |u| - 1);
    }
  }

  /** What the text from `item` on reads as, once its first separator has been found at `i`. */
  lemma FirstItem(s: string, item: nat, i: nat)
    requires item <= i <= |s| && ',' !in s[item..i] && (i < |s| ==> s[i] == ',')
    ensures ItemOf(s[item..i]).None? ==> ItemsOf(s[item..]) == None
    ensures ItemOf(s[item..i]).Some? && i == |s| ==> ItemsOf(s[item..]) == Some([ItemOf(s[item..i]).value])
    ensures ItemOf(s[item..i]).Some? && i < |s| ==>
              ItemsOf(s[item..]) == Prepend([ItemOf(s[item..i]).value], ItemsOf(s[i + 1..]))
  {
    hide ItemsOf, ItemOf;
    var t := s[item..];
    assert t[..i - item] == s[item..i];
    ItemsStep(t, i - item);
    if i < |s| {
      assert t[i - item + 1..] == s[i + 1..];
    }
  }

  lemma FoundItem(s: string, item: nat, start: nat, i: nat)
    requires item + 1 < start < i <= |s| && '=' !in s[item..start - 1] && s[start - 1] == '='
    ensures ItemOf(s[item..i]) == Some(Item(s[item..start - 1], s[start..i]))
  {
    var u, e := s[item..i], start - 1 - item;
    assert u[..e] == s[item..start - 1] && u[e + 1..] == s[start..i] && u[e] == '=';
    IndexOfUnique(u, '=', e);
  }

  lemma LeadingEquals(s: string, done: seq<Item>, item: nat)
    requires item < |s| && s[item] == '=' && Splits(s, done, item)
    ensures ItemsOf(s) == None
  {
    var t := s[item..];
    var c := IndexOf(t, ',');
    assert c > 0;
    NoItem(t[..c]);
  }

  lemma PrependAssoc(done: seq<Item>, x: Item, rest: Option<seq<Item>>)
    ensures Prepend(done, Prepend([x], rest)) == Prepend(done + [x], rest)
  {
    if rest.Some? {
      assert done + ([x] + rest.value) == (done + [x]) + rest.value;
    }
  }

  /** Where a left-to-right scan stands inside the item begun at `item`, its key found or not. */
  ghost predicate Scanning(s: string, item: nat, start: nat, i: nat, key: string, searchingKey: bool) {
    && item <= start <= i <= |s|
    && (forall k :: item <= k < i ==> s[k] != ',')
    && (searchingKey ==> start == item && forall k :: item <= k < i ==> s[k] != '=')
    && (!searchingKey ==> item + 1 < start && key == s[item..start - 1] && s[start - 1] == '='
                          && forall k :: item <= k < start - 1 ==> s[k] != '=')
  }

  /** The items already read and those in the rest of the text make up the whole. */
  ghost predicate Splits(s: string, done: seq<Item>, item: nat)
    requires item <= |s|
  {
    ItemsOf(s) == Prepend(done, ItemsOf(s[item..]))
  }

  lemma SplitsAtStart(s: string)
    ensures Splits(s, [], 0)
  {
    assert s[0..] == s;
    assert ItemsOf(s).Some? ==> [] + ItemsOf(s).value == ItemsOf(s).value;
  }

  lemma ItemCloses(s: string, done: seq<Item>, item: nat, start: nat, i: nat, key: string, searchingKey: bool)
    requires Scanning(s, item, start, i, key, searchingKey) && Splits(s, done, item) && (i < |s| ==> s[i] == ',')
    ensures searchingKey || i == start ==> ItemsOf(s) == None
    ensures !searchingKey && i > start && i < |s| ==> Splits(s, done + [Item(key, s[start..i])], i + 1)
    ensures !searchingKey && i > start && i == |s| ==> ItemsOf(s) == Some(done + [Item(key, s[start..i])])
  {
    hide ItemsOf;
    FirstItem(s, item, i);
    if searchingKey || i == start {
      assert !searchingKey ==> s[item..i][..|s[item..i]| - 1] == key;
      NoItem(s[item..i]);
    } else {
      FoundItem(s, item, start, i);
      if i < |s| {
        PrependAssoc(done, Item(key, s[start..i]), ItemsOf(s[i + 1..]));
      }
    }
  }

  lemma MapOfNone()
    ensures MapOf([]) == map[]
  {}

  lemma MapOfSnoc(items: seq<Item>, x: Item)
    ensures MapOf(items + [x]) == MapOf(items)[x.key := x.value]
  {
    assert (items + [x])[..|items|] == items;
  }

  /** parsePropagatableTraceTags: one pass over the bytes. */
  method ParseTags(s: string) returns (r: Option<map<string, string>>)
    ensures r == Parse(s)
  {
    hide ItemsOf, MapOf, Splits;
    if |s| == 0 {
      return Some(map[]);
    }
    var tags: map<string, string> := map[];
    var searchingKey, start := true, 0;
    var key: string := "";
    ghost var done: seq<Item>, item: nat := [], 0;
    SplitsAtStart(s);
    assert MapOf(done) == map[] by { MapOfNone(); }
    var i := 0;
    while i < |s|
      invariant tags == MapOf(done)
      invariant Scanning(s, item, start, i, key, searchingKey) && Splits(s, done, item)
    {
      if s[i] == ',' {
        ItemCloses(s, done, item, start, i, key, searchingKey);
        if searchingKey || i - start == 0 {
          return None;
        }
        MapOfSnoc(done, Item(key, s[start..i]));
        tags := tags[key := s[start..i]];
        done := done + [Item(key, s[start..i])];
        searchingKey, start, item := true, i + 1, i + 1;
      } else {
        if s[i] == '=' && searchingKey {
          if i - start == 0 {
            LeadingEquals(s, done, item);
            return None;
          }
          key := s[start..i];
          searchingKey, start := false, i + 1;
        }
      }
      i := i + 1;
    }
    ItemCloses(s, done, item, start, i, key, searchingKey);
    if searchingKey || |s| - start == 0 {
      return None;
    }
    MapOfSnoc(done, Item(key, s[start..i]));
    assert s[start..i] == s[start..];
    tags := tags[key := s[start..]];
    r := Some(tags);
  }

  // ---------- Writing ----------

  const ENCODING_ERROR := "encoding_error"
  const INJECT_MAX_SIZE := "inject_max_size"

  /** Bytes of keys and values, without separators. */
  function Size(items: seq<Item>): nat {
    if items == [] then 0
    else Size(items[..|items| - 1]) + |items[|items| - 1].key| + |items[|items| - 1].value|
  }

  ghost function Weight(m: map<string, string>): nat
    decreases |m|
  {
    if m == map[] then 0
    else
      var k :| k in m;
      assert (m - {k}).Keys == m.Keys - {k};
      |k| + |m[k]| + Weight(m - {k})
  }

  lemma RemoveCount<K, V>(m: map<K, V>, k: K)
    requires k in m
    ensures |m - {k}| == |m| - 1
  {
    assert (m - {k}).Keys == m.Keys - {k};
  }

  /** The weight does not depend on the order in which entries are taken out. */
  lemma {:induction false} WeightRemove(m: map<string, string>, k: string)
    requires k in m
    ensures Weight(m) == |k| + |m[k]| + Weight(m - {k})
    decreases |m|
  {
    var j :| j in m && Weight(m) == |j| + |m[j]| + Weight(m - {j});
    if j != k {
      RemoveCount(m, j);
      WeightRemove(m - {j}, k);
      RemoveCount(m, k);
      WeightRemove(m - {k}, j);
      assert m - {j} - {k} == m - {k} - {j};
    }
  }

  /** The length that the limit is compared with when the last of n items is about to be written. */
  function CheckedLength(size: nat, n: nat): int {
    if n <= 1 then size else size + 2 * n - 3
  }

  ghost predicate Overflows(m: map<string, string>, maxLen: int) {
    |m| > 0 && CheckedLength(Weight(m), |m|) > maxLen
  }

  ghost predicate Lists(items: seq<Item>, m: map<string, string>) {
    |items| == |m| && MapOf(items) == m
  }

  /** s is a header for exactly the tags of m, in some order. */
  ghost predicate Renders(s: string, m: map<string, string>) {
    exists items :: Lists(items, m) && s == Render(items)
  }

  lemma LastIsNew(items: seq<Item>, m: map<string, string>)
    requires Lists(items, m) && items != []
    ensures var x, front := items[|items| - 1], items[..|items| - 1];
      && x.key !in MapOf(front) && Lists(front, MapOf(front))
      && x.key in m && m[x.key] == x.value && m - {x.key} == MapOf(front)
  {
    var x, front := items[|items| - 1], items[..|items| - 1];
    MapOfSize(front);
    assert m == MapOf(front)[x.key := x.value];
    assert m.Keys == MapOf(front).Keys + {x.key};
    assert x.key in MapOf(front) ==> m.Keys == MapOf(front).Keys;
  }

  lemma {:induction false} MapOfValue(items: seq<Item>, m: map<string, string>)
    requires Lists(items, m)
    ensures forall x :: x in items ==> x.key in m && m[x.key] == x.value
  {
    if items != [] {
      var x, front := items[|items| - 1], items[..|items| - 1];
      LastIsNew(items, m);
      MapOfValue(front, MapOf(front));
      assert forall y :: y in items ==> y in front || y == x;
    }
  }

  lemma {:induction false} MapOfSize(items: seq<Item>)
    ensures |MapOf(items)| <= |items|
  {
    if items != [] {
      var x, front := items[|items| - 1], items[..|items| - 1];
      MapOfSize(front);
      assert MapOf(items).Keys == MapOf(front).Keys + {x.key};
    }
  }

  lemma {:induction false} RenderLength(items: seq<Item>)
    ensures |Render(items)| == if items == [] then 0 else Size(items) + 2 * |items| - 1
  {
    if items != [] {
      var x, front := items[|items| - 1], items[..|items| - 1];
      RenderLength(front);
      RenderSnoc(front, x);
      assert front + [x] == items;
    }
  }

  lemma {:induction false} SizeIsWeight(items: seq<Item>, m: map<string, string>)
    requires Lists(items, m)
    ensures Size(items) == Weight(m)
    decreases |items|
  {
    if items != [] {
      var x, front := items[|items| - 1], items[..|items| - 1];
      LastIsNew(items, m);
      WeightRemove(m, x.key);
      SizeIsWeight(front, MapOf(front));
    }
  }

  /** A header for valid tags is read back as exactly those tags. */
  lemma EmittedParsesBack(s: string, m: map<string, string>)
    requires Renders(s, m) && forall k :: k in m ==> ValidTag(k, m[k])
    ensures Parse(s) == Some(m)
  {
    var items :| Lists(items, m) && s == Render(items);
    MapOfValue(items, m);
    if items != [] {
      forall x | x in items ensures WellFormed(x) {
        assert ValidTag(x.key, m[x.key]);
      }
      ItemsRoundTrip(items);
      RenderLength(items);
    }
  }

  /** The limit ignores the separators about to be written: an emitted header may exceed it, by at most two bytes. */
  lemma EmittedLength(s: string, m: map<string, string>, maxLen: int)
    requires Renders(s, m) && |m| > 0
    ensures |s| == Weight(m) + 2 * |m| - 1
    ensures |m| == 1 ==> (!Overflows(m, maxLen) <==> |s| <= maxLen + 1)
    ensures |m| >= 2 ==> (!Overflows(m, maxLen) <==> |s| <= maxLen + 2)
  {
    var items :| Lists(items, m) && s == Render(items);
    RenderLength(items);
    SizeIsWeight(items, m);
  }

  /** The propagation error recorded on the trace; the size limit takes precedence. */
  ghost function InjectError(tags: map<string, string>, maxLen: int): Option<string> {
    if Overflows(ValidPart(tags), maxLen) then Some(INJECT_MAX_SIZE)
    else if forall k :: k in tags ==> ValidTag(k, tags[k]) then None
    else Some(ENCODING_ERROR)
  }

  lemma ValidPartRemove(m: map<string, string>, k: string)
    requires k in m
    ensures ValidTag(k, m[k]) ==> k in ValidPart(m) && ValidPart(m)[k] == m[k] && ValidPart(m - {k}) == ValidPart(m) - {k}
    ensures !ValidTag(k, m[k]) ==> ValidPart(m - {k}) == ValidPart(m) && k !in ValidPart(m)
  {
    hide ValidTag;
    assert ValidTag(k, m[k]) ==> ValidPart(m - {k}) == ValidPart(m) - {k};
    assert !ValidTag(k, m[k]) ==> ValidPart(m - {k}) == ValidPart(m);
  }

  /** What has been written so far and what is still to be visited make up the valid tags. */
  ghost predicate Writing(tags: map<string, string>, items: seq<Item>, rest: map<string, string>, maxLen: int) {
    var written := MapOf(items);
    && |written| == |items|
    && written.Keys !! rest.Keys
    && written + ValidPart(rest) == ValidPart(tags)
    && |items| + |ValidPart(rest)| == |ValidPart(tags)|
    && Size(items) + Weight(ValidPart(rest)) == Weight(ValidPart(tags))
    && (items != [] ==> CheckedLength(Size(items), |items|) <= maxLen)
  }

  lemma WritingSkips(tags: map<string, string>, items: seq<Item>, rest: map<string, string>, maxLen: int, k: string)
    requires Writing(tags, items, rest, maxLen) && k in rest && !ValidTag(k, rest[k])
    ensures Writing(tags, items, rest - {k}, maxLen)
  {
    ValidPartRemove(rest, k);
  }

  lemma SizeSnoc(items: seq<Item>, x: Item)
    ensures Size(items + [x]) == Size(items) + |x.key| + |x.value|
  {
    assert (items + [x])[..|items|] == items;
  }

  lemma MoveAcross(written: map<string, string>, valid: map<string, string>, k: string)
    requires k !in written && k in valid
    ensures written[k := valid[k]] + (valid - {k}) == written + valid
    ensures |written[k := valid[k]]| == |written| + 1
  {
    assert written[k := valid[k]].Keys == written.Keys + {k};
  }

  /** The test made before writing an item is the whole test, cut down to the items up to it. */
  lemma WritingExtends(tags: map<string, string>, items: seq<Item>, rest: map<string, string>, maxLen: int, k: string)
    requires Writing(tags, items, rest, maxLen) && k in rest && ValidTag(k, rest[k])
    ensures |Render(items)| + |k| + |rest[k]| <= maxLen ==> Writing(tags, items + [Item(k, rest[k])], rest - {k}, maxLen)
    ensures |Render(items)| + |k| + |rest[k]| > maxLen ==> Overflows(ValidPart(tags), maxLen)
  {
    hide ValidTag, Render, ValidPart, Weight, Size, MapOf;
    var x, valid := Item(k, rest[k]), ValidPart(rest);
    RenderLength(items);
    ValidPartRemove(rest, k);
    WeightRemove(valid, k);
    RemoveCount(valid, k);
    MapOfSnoc(items, x);
    SizeSnoc(items, x);
    MoveAcross(MapOf(items), valid, k);
    SizeEmpty(items);
  }

  lemma SizeEmpty(items: seq<Item>)
    ensures items == [] ==> Size(items) == 0
  {}

  lemma WritingEnds(tags: map<string, string>, items: seq<Item>, maxLen: int)
    requires Writing(tags, items, map[], maxLen)
    ensures Lists(items, ValidPart(tags)) && !Overflows(ValidPart(tags), maxLen)
  {
    assert ValidPart(map[]) == map[];
    assert MapOf(items) + map[] == MapOf(items);
  }

  lemma WritingStarts(tags: map<string, string>, maxLen: int)
    ensures Writing(tags, [], tags, maxLen)
  {
    assert MapOf([]) + ValidPart(tags) == ValidPart(tags);
  }

  /**
   marshalPropagatingTags, visiting the tags in an arbitrary order.  Whether the header is
   emitted, which tags are in it and which error is recorded do not depend on that order.
   */
  method Marshal(tags: map<string, string>, maxLen: int) returns (header: string, error: Option<string>)
    ensures Overflows(ValidPart(tags), maxLen) ==> header == ""
    ensures !Overflows(ValidPart(tags), maxLen) ==> Renders(header, ValidPart(tags))
    ensures error == InjectError(tags, maxLen)
  {
    hide ValidTag, ValidPart, Render, Overflows, Writing, ErrorSoFar, InjectError;
    var sb := "";
    error := None;
    var rest := tags;
    ghost var items: seq<Item> := [];
    WritingStarts(tags, maxLen);
    RenderNothing();
    ErrorAtFirst(tags);
    ErrorAtLast(tags, maxLen);
    while rest != map[]
      invariant rest.Keys <= tags.Keys && forall k :: k in rest ==> rest[k] == tags[k]
      invariant Writing(tags, items, rest, maxLen)
      invariant sb == Render(items)
      invariant error == ErrorSoFar(tags, rest)
      decreases |rest|
    {
      var k :| k in rest;
      var v := rest[k];
      RemoveCount(rest, k);
      ErrorNext(tags, rest, k);
      var ok := IsValidPropagatableTag(k, v);
      if !ok {
        WritingSkips(tags, items, rest, maxLen, k);
        error := Some(ENCODING_ERROR);
      } else {
        WritingExtends(tags, items, rest, maxLen, k);
        if |sb| + |k| + |v| > maxLen {
          return "", Some(INJECT_MAX_SIZE);
        }
        RenderSnoc(items, Item(k, v));
        RenderEmpty(items);
        if |sb| > 0 {
          sb := sb + ",";
        }
        sb := sb + (k + "=" + v);
        items := items + [Item(k, v)];
      }
      rest := rest - {k};
    }
    WritingEnds(tags, items, maxLen);
    header := sb;
    assert Lists(items, ValidPart(tags)) && header == Render(items);
  }

  /** The error recorded once only the tags in `rest` are left. */
  ghost function ErrorSoFar(tags: map<string, string>, rest: map<string, string>): Option<string> {
    if forall k :: k in tags && k !in rest ==> ValidTag(k, tags[k]) then None else Some(ENCODING_ERROR)
  }

  lemma ErrorNext(tags: map<string, string>, rest: map<string, string>, k: string)
    requires k in rest && k in tags && rest[k] == tags[k]
    ensures ErrorSoFar(tags, rest - {k}) == if ValidTag(k, rest[k]) then ErrorSoFar(tags, rest) else Some(ENCODING_ERROR)
  {
    hide ValidTag;
    assert k !in rest - {k};
  }

  lemma ErrorAtFirst(tags: map<string, string>)
    ensures ErrorSoFar(tags, tags) == None
  {
  }

  lemma ErrorAtLast(tags: map<string, string>, maxLen: int)
    ensures Overflows(ValidPart(tags), maxLen) || ErrorSoFar(tags, map[]) == InjectError(tags, maxLen)
    ensures Overflows(ValidPart(tags), maxLen) ==> InjectError(tags, maxLen) == Some(INJECT_MAX_SIZE)
  {
    hide ValidTag, ValidPart, Overflows;
  }

  lemma RenderNothing()
    ensures Render([]) == ""
  {}

  lemma RenderEmpty(items: seq<Item>)
    ensures |Render(items)| > 0 <==> items != []
  {
    RenderLength(items);
  }
}
