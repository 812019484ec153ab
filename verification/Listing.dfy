/** `ListObjectsV2`: prefix, delimiter folding, start bound, page budget and continuation. */
module Listing {
  import opened Types
  import opened Utf8
  import opened Order

  datatype Params = Params(
    prefix: Option<Str>,
    delimiter: Option<Str>,
    token: Option<Str>,
    startAfter: Option<Str>,
    maxKeys: nat) {
    function Prefix(): Str { if prefix.Some? then prefix.value else "" }

    /** An empty delimiter folds nothing. */
    function Delimiter(): Option<Str> { if delimiter == Some("") then None else delimiter }

    /** The later of the two exclusive bounds, where both are given. */
    function StartBound(): Option<Str> {
      if token.None? then startAfter
      else if startAfter.None? || Less(startAfter.value, token.value) then token
      else startAfter
    }
  }

  datatype Item = Object(key: Str) | CommonPrefix(prefix: Str) {
    function Name(): Str { if Object? then key else prefix }
  }

  datatype Page = Page(objects: seq<(Str, VersionEntry)>, commonPrefixes: seq<Str>, truncated: bool, token: Option<Str>)

  // ----- folding -----

  function Find(s: Str, d: Str): (r: Option<nat>)
    ensures r.Some? ==> r.value + |d| <= |s|
  {
    if d <= s then Some(0)
    else if s == [] then None
    else match Find(s[1..], d) case None => None case Some(i) => Some(i + 1)
  }

  /** The key up to and including the first delimiter past the prefix. */
  function CommonPrefixOf(key: Str, n: nat, d: Str): (r: Option<Str>)
    requires n <= |key|
    ensures r.Some? ==> r.value <= key && n <= |r.value|
  {
    match Find(key[n..], d)
    case None => None
    case Some(at) => Some(key[..n + at + |d|])
  }

  function ItemOf(p: Params, key: Str): (item: Item)
    requires p.Prefix() <= key
    ensures item.Name() <= key
  {
    var d := p.Delimiter();
    if d.Some? && CommonPrefixOf(key, |p.Prefix()|, d.value).Some?
    then CommonPrefix(CommonPrefixOf(key, |p.Prefix()|, d.value).value)
    else Object(key)
  }

  lemma SharedHead(s: Str, t: Str, d: Str, head: Str)
    requires head <= s && head <= t && |d| <= |head|
    ensures d <= s <==> d <= t
  {
    assert s[..|d|] == head[..|d|] == t[..|d|];
  }

  lemma {:induction false} FindShared(s: Str, t: Str, d: Str)
    requires Find(s, d).Some? && s[..Find(s, d).value + |d|] <= t
    ensures Find(t, d) == Find(s, d)
  {
    var at := Find(s, d).value;
    var head := s[..at + |d|];
    if at == 0 {
      assert d == head;
    } else {
      assert head[1..] == s[1..][..at - 1 + |d|];
      assert s != [] && t != [] && head[1..] <= t[1..];
      FindShared(s[1..], t[1..], d);
      SharedHead(s, t, d, head);
    }
  }

  /** Every key under a common prefix folds into it. */
  lemma FoldIsShared(k: Str, l: Str, n: nat, d: Str)
    requires n <= |k| && n <= |l| && CommonPrefixOf(k, n, d).Some? && CommonPrefixOf(k, n, d).value <= l
    ensures CommonPrefixOf(l, n, d) == CommonPrefixOf(k, n, d)
  {
    var at := Find(k[n..], d).value;
    var c := k[..n + at + |d|];
    assert k[n..][..at + |d|] == c[n..];
    assert c[n..] <= l[n..];
    FindShared(k[n..], l[n..], d);
    assert l[..|c|] == c;
  }

  /** Folding is monotone in key order, and two keys share an item only by sharing a common prefix. */
  lemma FoldIsMonotone(p: Params, k: Str, l: Str)
    requires p.Prefix() <= k && p.Prefix() <= l && Less(k, l)
    ensures Less(ItemOf(p, k).Name(), ItemOf(p, l).Name()) || (ItemOf(p, k) == ItemOf(p, l) && ItemOf(p, l).CommonPrefix?)
  {
    var x, y := ItemOf(p, k).Name(), ItemOf(p, l).Name();
    PrefixesInOrder(k, l, x, y);
    if !Less(x, y) {
      assert y <= k;
      if ItemOf(p, l).CommonPrefix? {
        FoldIsShared(l, k, |p.Prefix()|, p.Delimiter().value);
      } else {
        LessAsymmetric(k, l);
        PrefixIsLess(l, k);
        assert false;
      }
    }
  }

  // ----- what a listing is -----

  predicate Past(start: Option<Str>, name: Str) {
    start.None? || Less(start.value, name)
  }

  /** `key` contributes an item past `start`. */
  predicate Listed(p: Params, start: Option<Str>, live: map<Str, VersionEntry>, key: Str) {
    p.Prefix() <= key && key in live && Past(start, ItemOf(p, key).Name())
  }

  /** The distinct items of the listed keys, in the order their first keys come. */
  function Items(p: Params, start: Option<Str>, live: map<Str, VersionEntry>, keys: seq<Str>): seq<Item> {
    if keys == [] then []
    else
      var init, key := Items(p, start, live, keys[..|keys| - 1]), keys[|keys| - 1];
      if !Listed(p, start, live, key) || ItemOf(p, key) in init then init else init + [ItemOf(p, key)]
  }

  /** An item is listed exactly when some listed key folds to it. */
  lemma {:induction false} ItemsAreExact(p: Params, start: Option<Str>, live: map<Str, VersionEntry>, keys: seq<Str>, item: Item)
    ensures item in Items(p, start, live, keys) <==> exists k :: k in keys && Listed(p, start, live, k) && ItemOf(p, k) == item
  {
    if keys != [] {
      var init, key := keys[..|keys| - 1], keys[|keys| - 1];
      ItemsAreExact(p, start, live, init, item);
      assert forall k :: k in keys <==> k in init || k == key;
    }
  }

  ghost predicate AscendingItems(items: seq<Item>) {
    forall i, j :: 0 <= i < j < |items| ==> Less(items[i].Name(), items[j].Name())
  }

  /** Among items of earlier keys, the item of a later key is the last or not there at all. */
  lemma ItemIsLastOrNew(p: Params, start: Option<Str>, live: map<Str, VersionEntry>, keys: seq<Str>, key: Str, item: Item)
    requires Ascending(keys + [key]) && p.Prefix() <= key && item in Items(p, start, live, keys)
    ensures Less(item.Name(), ItemOf(p, key).Name()) || (item == ItemOf(p, key) && item.CommonPrefix?)
  {
    ItemsAreExact(p, start, live, keys, item);
    var k :| k in keys && Listed(p, start, live, k) && ItemOf(p, k) == item;
    var i :| 0 <= i < |keys| && keys[i] == k;
    assert (keys + [key])[i] == k && (keys + [key])[|keys|] == key;
    FoldIsMonotone(p, k, key);
  }

  lemma AscendingInit(keys: seq<Str>)
    requires Ascending(keys) && keys != []
    ensures Ascending(keys[..|keys| - 1]) && keys[..|keys| - 1] + [keys[|keys| - 1]] == keys
  {
  }

  /** A listing of ascending keys is ascending by name, so no item, and no name, appears twice. */
  lemma {:induction false} ItemsAscend(p: Params, start: Option<Str>, live: map<Str, VersionEntry>, keys: seq<Str>)
    requires Ascending(keys)
    ensures AscendingItems(Items(p, start, live, keys))
  {
    if keys != [] {
      var keys', key := keys[..|keys| - 1], keys[|keys| - 1];
      AscendingInit(keys);
      ItemsAscend(p, start, live, keys');
      var init := Items(p, start, live, keys');
      if Listed(p, start, live, key) && ItemOf(p, key) !in init {
        forall i | 0 <= i < |init| ensures Less(init[i].Name(), ItemOf(p, key).Name()) {
          ItemIsLastOrNew(p, start, live, keys', key, init[i]);
        }
      }
    }
  }

  function ObjectsOf(items: seq<Item>, live: map<Str, VersionEntry>): seq<(Str, VersionEntry)> {
    if items == [] then []
    else
      var init, last := ObjectsOf(items[..|items| - 1], live), items[|items| - 1];
      if last.Object? && last.key in live then init + [(last.key, live[last.key])] else init
  }

  function PrefixesOf(items: seq<Item>): seq<Str> {
    if items == [] then []
    else
      var init, last := PrefixesOf(items[..|items| - 1]), items[|items| - 1];
      if last.CommonPrefix? then init + [last.prefix] else init
  }

  /** The first `max` of `items`, and how to go on if there are more. */
  function PageOf(items: seq<Item>, live: map<Str, VersionEntry>, max: nat): Page {
    if |items| <= max then Page(ObjectsOf(items, live), PrefixesOf(items), false, None)
    else Page(ObjectsOf(items[..max], live), PrefixesOf(items[..max]), true, if max == 0 then None else Some(items[max - 1].Name()))
  }

  lemma {:induction false} LastPrefix(items: seq<Item>)
    ensures PrefixesOf(items) == [] ==> forall i :: 0 <= i < |items| ==> items[i].Object?
    ensures PrefixesOf(items) != [] ==> CommonPrefix(PrefixesOf(items)[|PrefixesOf(items)| - 1]) in items
    ensures PrefixesOf(items) != [] && AscendingItems(items) ==>
              forall i :: 0 <= i < |items| && items[i].CommonPrefix? ==> AtMost(items[i].prefix, PrefixesOf(items)[|PrefixesOf(items)| - 1])
  {
    if items != [] {
      LastPrefix(items[..|items| - 1]);
    }
  }

  /** The group already counted is always the last one emitted. */
  lemma GroupIsLast(p: Params, start: Option<Str>, live: map<Str, VersionEntry>, keys: seq<Str>, key: Str)
    requires Ascending(keys + [key]) && p.Prefix() <= key && ItemOf(p, key).CommonPrefix?
    ensures var items := Items(p, start, live, keys);
            ItemOf(p, key) in items <==> PrefixesOf(items) != [] && PrefixesOf(items)[|PrefixesOf(items)| - 1] == ItemOf(p, key).prefix
  {
    var items, item := Items(p, start, live, keys), ItemOf(p, key);
    AscendingInit(keys + [key]);
    assert (keys + [key])[..|keys|] == keys;
    ItemsAscend(p, start, live, keys);
    LastPrefix(items);
    if item in items {
      var last := PrefixesOf(items)[|PrefixesOf(items)| - 1];
      assert AtMost(item.prefix, last);
      ItemIsLastOrNew(p, start, live, keys, key, CommonPrefix(last));
      if last != item.prefix {
        LessAsymmetric(last, item.prefix);
      }
    }
  }

  lemma ObjectIsNew(p: Params, start: Option<Str>, live: map<Str, VersionEntry>, keys: seq<Str>, key: Str)
    requires Ascending(keys + [key]) && p.Prefix() <= key && ItemOf(p, key).Object?
    ensures ItemOf(p, key) !in Items(p, start, live, keys)
  {
    if ItemOf(p, key) in Items(p, start, live, keys) {
      ItemIsLastOrNew(p, start, live, keys, key, ItemOf(p, key));
      LessIrreflexive(ItemOf(p, key).Name());
    }
  }

  lemma {:induction false} ItemsGrow(p: Params, start: Option<Str>, live: map<Str, VersionEntry>, keys: seq<Str>, i: nat)
    requires i <= |keys|
    ensures Items(p, start, live, keys[..i]) <= Items(p, start, live, keys)
    decreases |keys|
  {
    if i < |keys| {
      ItemsGrow(p, start, live, keys[..|keys| - 1], i);
      assert keys[..|keys| - 1][..i] == keys[..i];
    } else {
      assert keys[..i] == keys;
    }
  }

  /** One item more than fits, found anywhere on the way, settles the page. */
  lemma FullPage(p: Params, start: Option<Str>, live: map<Str, VersionEntry>, keys: seq<Str>, i: nat, items: seq<Item>, item: Item)
    requires i <= |keys| && Items(p, start, live, keys[..i]) == items + [item] && items != []
    ensures PageOf(Items(p, start, live, keys), live, |items|)
              == Page(ObjectsOf(items, live), PrefixesOf(items), true, Some(items[|items| - 1].Name()))
  {
    ItemsGrow(p, start, live, keys, i);
    assert Items(p, start, live, keys)[..|items|] == (items + [item])[..|items|] == items;
  }

  /** A page so far, with the last item emitted as its token. */
  function Partial(items: seq<Item>, live: map<Str, VersionEntry>): Page {
    Page(ObjectsOf(items, live), PrefixesOf(items), false, if items == [] then None else Some(items[|items| - 1].Name()))
  }

  function WithItem(page: Page, item: Item, live: map<Str, VersionEntry>): Page
    requires item.Object? ==> item.key in live
  {
    if item.CommonPrefix? then page.(token := Some(item.prefix), commonPrefixes := page.commonPrefixes + [item.prefix])
    else page.(token := Some(item.key), objects := page.objects + [(item.key, live[item.key])])
  }

  lemma PartialAppend(items: seq<Item>, item: Item, live: map<Str, VersionEntry>)
    requires item.Object? ==> item.key in live
    ensures Partial(items + [item], live) == WithItem(Partial(items, live), item, live)
  {
    assert (items + [item])[..|items|] == items;
  }

  lemma ItemsStep(p: Params, start: Option<Str>, live: map<Str, VersionEntry>, keys: seq<Str>, i: nat)
    requires i < |keys| && Ascending(keys)
    ensures var items := Items(p, start, live, keys[..i]);
            Items(p, start, live, keys[..i + 1])
              == if !Listed(p, start, live, keys[i]) || ItemOf(p, keys[i]) in items then items else items + [ItemOf(p, keys[i])]
    ensures Ascending(keys[..i] + [keys[i]])
  {
    assert keys[..i + 1][..i] == keys[..i] && keys[..i] + [keys[i]] == keys[..i + 1];
  }

  /** The pass's own test of whether `key` adds an item: it looks only at the last group emitted. */
  predicate Adds(p: Params, start: Option<Str>, live: map<Str, VersionEntry>, out: Page, key: Str) {
    && p.Prefix() <= key
    && (var item := ItemOf(p, key);
        && Past(start, item.Name())
        && !(item.CommonPrefix? && out.commonPrefixes != [] && out.commonPrefixes[|out.commonPrefixes| - 1] == item.prefix)
        && key in live)
  }

  lemma AddsIsExact(p: Params, start: Option<Str>, live: map<Str, VersionEntry>, keys: seq<Str>, key: Str)
    requires Ascending(keys + [key])
    ensures var items := Items(p, start, live, keys);
            Adds(p, start, live, Partial(items, live), key) <==> Listed(p, start, live, key) && ItemOf(p, key) !in items
  {
    if p.Prefix() <= key {
      if ItemOf(p, key).CommonPrefix? {
        GroupIsLast(p, start, live, keys, key);
      } else {
        ObjectIsNew(p, start, live, keys, key);
      }
    }
  }

  lemma PassStep(p: Params, start: Option<Str>, live: map<Str, VersionEntry>, keys: seq<Str>, i: nat)
    requires i < |keys| && Ascending(keys)
    ensures var items, key := Items(p, start, live, keys[..i]), keys[i];
            var items' := Items(p, start, live, keys[..i + 1]);
            if Adds(p, start, live, Partial(items, live), key)
            then p.Prefix() <= key && items' == items + [ItemOf(p, key)] && (ItemOf(p, key).Object? ==> ItemOf(p, key).key in live)
            else items' == items
  {
    hide Less, CommonPrefixOf, Past, Items, ObjectsOf, PrefixesOf, Ascending;
    ItemsStep(p, start, live, keys, i);
    AddsIsExact(p, start, live, keys[..i], keys[i]);
  }

  // ----- what a page must be, in terms of the request's own fields -----

  /** A delimiter of the request, not the empty one, is in `key` at `j`, past the prefix. */
  predicate Delimits(p: Params, key: Str, j: nat) {
    && p.delimiter.Some? && p.delimiter.value != ""
    && (p.prefix.Some? ==> |p.prefix.value| <= j)
    && j + |p.delimiter.value| <= |key| && key[j..j + |p.delimiter.value|] == p.delimiter.value
  }

  predicate FirstDelimits(p: Params, key: Str, j: nat) {
    Delimits(p, key, j) && forall i: nat :: i < j ==> !Delimits(p, key, i)
  }

  /** What `key` is listed as: up to and with its first delimiter, or itself if it has none. */
  ghost predicate ListedAs(p: Params, key: Str, item: Item) {
    match item
    case Object(k) => k == key && forall j: nat :: !Delimits(p, key, j)
    case CommonPrefix(c) => exists j: nat :: FirstDelimits(p, key, j) && c == key[..j + |p.delimiter.value|]
  }

  /** `item` comes after `bound`, if there is one. */
  predicate Beyond(bound: Option<Str>, item: Item) {
    bound.Some? ==> match item case Object(k) => Less(bound.value, k) case CommonPrefix(c) => Less(bound.value, c)
  }

  /** `key` is live, starts with the prefix, and is listed as `item`, past the token and past `start_after`. */
  ghost predicate Lists(p: Params, live: map<Str, VersionEntry>, key: Str, item: Item) {
    && key in live && (p.prefix.Some? ==> p.prefix.value <= key) && ListedAs(p, key, item)
    && Beyond(p.token, item) && Beyond(p.startAfter, item)
  }

  ghost predicate IsListed(p: Params, keys: seq<Str>, live: map<Str, VersionEntry>, item: Item) {
    exists k :: k in keys && Lists(p, live, k, item)
  }

  predicate OnPage(out: Page, live: map<Str, VersionEntry>, item: Item) {
    match item
    case Object(k) => k in live && (k, live[k]) in out.objects
    case CommonPrefix(c) => c in out.commonPrefixes
  }

  predicate UpTo(token: Option<Str>, item: Item) {
    token.Some? ==> match item case Object(k) => AtMost(k, token.value) case CommonPrefix(c) => AtMost(c, token.value)
  }

  /**
   The page for the request: everything listed, once and in order, if that is no more than asked for;
   and otherwise as many as asked for, up to the one that is the token, with more after it.
   */
  ghost predicate Answers(p: Params, keys: seq<Str>, live: map<Str, VersionEntry>, out: Page) {
    && Ascending(out.commonPrefixes)
    && (forall i, j :: 0 <= i < j < |out.objects| ==> Less(out.objects[i].0, out.objects[j].0))
    && (forall o :: o in out.objects ==> o.0 in live && o.1 == live[o.0])
    && (forall item :: OnPage(out, live, item) <==> IsListed(p, keys, live, item) && UpTo(out.token, item))
    && |out.objects| + |out.commonPrefixes| <= p.maxKeys
    && (out.truncated <==> out.token.Some?)
    && (out.truncated ==>
        && |out.objects| + |out.commonPrefixes| == p.maxKeys
        && (OnPage(out, live, Object(out.token.value)) || OnPage(out, live, CommonPrefix(out.token.value)))
        && exists item :: IsListed(p, keys, live, item) && Beyond(out.token, item))
  }

  // ----- and that it is -----

  lemma {:induction false} FindIsFirst(s: Str, d: Str, j: nat)
    ensures Find(s, d).Some? ==> d == s[Find(s, d).value..Find(s, d).value + |d|]
    ensures j + |d| <= |s| && s[j..j + |d|] == d ==> Find(s, d).Some? && Find(s, d).value <= j
    decreases |s|
  {
    if !(d <= s) && s != [] {
      FindIsFirst(s[1..], d, if j > 0 then j - 1 else 0);
      if j > 0 && j + |d| <= |s| {
        assert s[1..][j - 1..j - 1 + |d|] == s[j..j + |d|];
      }
      if Find(s[1..], d).Some? {
        var i := Find(s[1..], d).value;
        assert s[1..][i..i + |d|] == s[i + 1..i + 1 + |d|];
      }
    }
  }

  lemma SliceOfTail(s: Str, n: nat, i: nat, m: nat)
    requires n + i + m <= |s|
    ensures s[n..][i..i + m] == s[n + i..n + i + m]
  {
  }

  /** Folding looks for the first delimiter past the prefix. */
  lemma FoldFinds(p: Params, key: Str, j: nat)
    requires p.Prefix() <= key && p.Delimiter().Some?
    ensures var n, d := |p.Prefix()|, p.Delimiter().value;
            && (Delimits(p, key, j) ==> Find(key[n..], d).Some? && n + Find(key[n..], d).value <= j)
            && (Find(key[n..], d).Some? ==> Delimits(p, key, n + Find(key[n..], d).value))
  {
    var n, d := |p.Prefix()|, p.Delimiter().value;
    hide Find;
    FindIsFirst(key[n..], d, if j >= n then j - n else 0);
    if j >= n && j + |d| <= |key| {
      SliceOfTail(key, n, j - n, |d|);
    }
    if Find(key[n..], d).Some? {
      SliceOfTail(key, n, Find(key[n..], d).value, |d|);
    }
  }

  lemma ItemIsListedAs(p: Params, key: Str, item: Item)
    requires p.Prefix() <= key
    ensures ListedAs(p, key, item) <==> item == ItemOf(p, key)
  {
    hide Find;
    var n, d := |p.Prefix()|, p.Delimiter();
    if d.None? {
      assert forall j: nat :: !Delimits(p, key, j);
    } else {
      hide Delimits;
      forall j: nat ensures Delimits(p, key, j) ==> Find(key[n..], d.value).Some? && n + Find(key[n..], d.value).value <= j {
        FoldFinds(p, key, j);
      }
      FoldFinds(p, key, 0);
      if Find(key[n..], d.value).Some? {
        assert FirstDelimits(p, key, n + Find(key[n..], d.value).value);
      }
    }
  }

  /** Past the later of the two bounds is past both. */
  lemma BoundIsBoth(p: Params, item: Item)
    ensures Past(p.StartBound(), item.Name()) <==> Beyond(p.token, item) && Beyond(p.startAfter, item)
  {
    if p.token.Some? && p.startAfter.Some? {
      var t, a, name := p.token.value, p.startAfter.value, item.Name();
      LessTotal(a, t);
      if Less(a, t) && Less(t, name) {
        LessTransitive(a, t, name);
      }
      if Less(t, a) && Less(a, name) {
        LessTransitive(t, a, name);
      }
      if Less(t, a) {
        LessAsymmetric(t, a);
      }
    }
  }

  /** The items of a listing are exactly what the fields of the request say is listed. */
  lemma ItemsByFields(p: Params, live: map<Str, VersionEntry>, keys: seq<Str>, item: Item)
    ensures item in Items(p, p.StartBound(), live, keys) <==> IsListed(p, keys, live, item)
  {
    hide Items, ItemOf, ListedAs, Past, Beyond, Params.StartBound;
    ItemsAreExact(p, p.StartBound(), live, keys, item);
    BoundIsBoth(p, item);
    forall k: Str ensures Listed(p, p.StartBound(), live, k) && ItemOf(p, k) == item <==> Lists(p, live, k, item) {
      if p.Prefix() <= k {
        ItemIsListedAs(p, k, item);
      }
    }
  }

  lemma {:induction false} ObjectsAre(items: seq<Item>, live: map<Str, VersionEntry>)
    requires AscendingItems(items)
    ensures var os := ObjectsOf(items, live);
            && (forall o :: o in os <==> Object(o.0) in items && o.0 in live && o.1 == live[o.0])
            && (forall i, j :: 0 <= i < j < |os| ==> Less(os[i].0, os[j].0))
  {
    if items != [] {
      var init, last := items[..|items| - 1], items[|items| - 1];
      ObjectsAre(init, live);
      assert items == init + [last];
      var os := ObjectsOf(init, live);
      forall i | 0 <= i < |os| && last.Object? ensures Less(os[i].0, last.key) {
        assert os[i] in os;
        var j :| 0 <= j < |init| && init[j] == Object(os[i].0);
        assert Less(items[j].Name(), items[|init|].Name());
      }
    }
  }

  lemma {:induction false} PrefixesAre(items: seq<Item>)
    requires AscendingItems(items)
    ensures var cs := PrefixesOf(items);
            (forall c :: c in cs <==> CommonPrefix(c) in items) && Ascending(cs)
  {
    if items != [] {
      var init, last := items[..|items| - 1], items[|items| - 1];
      PrefixesAre(init);
      assert items == init + [last];
      var cs := PrefixesOf(init);
      forall i | 0 <= i < |cs| && last.CommonPrefix? ensures Less(cs[i], last.prefix) {
        assert cs[i] in cs;
        var j :| 0 <= j < |init| && init[j] == CommonPrefix(cs[i]);
        assert Less(items[j].Name(), items[|init|].Name());
      }
    }
  }

  ghost predicate LiveObjects(items: seq<Item>, live: map<Str, VersionEntry>) {
    forall i :: 0 <= i < |items| && items[i].Object? ==> items[i].key in live
  }

  lemma {:induction false} PageSize(items: seq<Item>, live: map<Str, VersionEntry>)
    requires LiveObjects(items, live)
    ensures |ObjectsOf(items, live)| + |PrefixesOf(items)| == |items|
  {
    if items != [] {
      PageSize(items[..|items| - 1], live);
    }
  }

  /** Of ascending items, those in the first `n` are those up to the `n`th. */
  lemma FirstAreUpTo(items: seq<Item>, n: nat, item: Item)
    requires AscendingItems(items) && 0 < n <= |items| && item in items
    ensures item in items[..n] <==> AtMost(item.Name(), items[n - 1].Name())
  {
    var i :| 0 <= i < |items| && items[i] == item;
    if i < n {
      assert items[..n][i] == item;
    } else {
      LessAsymmetric(items[n - 1].Name(), item.Name());
      forall j | 0 <= j < n ensures items[..n][j] != item {
        LessAsymmetric(items[j].Name(), items[i].Name());
      }
    }
  }

  /** A page of items shows exactly those items. */
  lemma ShownAre(items: seq<Item>, live: map<Str, VersionEntry>, out: Page, item: Item)
    requires AscendingItems(items) && LiveObjects(items, live)
    requires out.objects == ObjectsOf(items, live) && out.commonPrefixes == PrefixesOf(items)
    ensures OnPage(out, live, item) <==> item in items
  {
    ObjectsAre(items, live);
    PrefixesAre(items);
  }

  lemma ItemsAreLive(p: Params, keys: seq<Str>, live: map<Str, VersionEntry>)
    ensures LiveObjects(Items(p, p.StartBound(), live, keys), live)
  {
    hide Items, Params.StartBound, Delimits, Beyond;
    var items := Items(p, p.StartBound(), live, keys);
    forall i | 0 <= i < |items| && items[i].Object? ensures items[i].key in live {
      ItemsByFields(p, live, keys, items[i]);
    }
  }

  /** The page of the listing's items is the answer to the request. */
  lemma PageAnswers(p: Params, keys: seq<Str>, live: map<Str, VersionEntry>)
    requires Ascending(keys) && p.maxKeys > 0
    ensures Answers(p, keys, live, PageOf(Items(p, p.StartBound(), live, keys), live, p.maxKeys))
  {
    hide Items, Params.StartBound, IsListed, OnPage, ObjectsOf, PrefixesOf, Less;
    var items := Items(p, p.StartBound(), live, keys);
    var n := if |items| <= p.maxKeys then |items| else p.maxKeys;
    var shown, out := items[..n], PageOf(items, live, p.maxKeys);
    assert n == |items| ==> shown == items;
    ItemsAscend(p, p.StartBound(), live, keys);
    ItemsAreLive(p, keys, live);
    ObjectsAre(shown, live);
    PrefixesAre(shown);
    PageSize(shown, live);
    forall item ensures OnPage(out, live, item) <==> IsListed(p, keys, live, item) && UpTo(out.token, item) {
      ItemsByFields(p, live, keys, item);
      ShownAre(shown, live, out, item);
      if out.truncated && item in items {
        FirstAreUpTo(items, n, item);
      }
    }
    if out.truncated {
      TokenIsLast(items, live, out, n);
      assert items[n] in items;
      ItemsByFields(p, live, keys, items[n]);
      assert Beyond(out.token, items[n]);
    }
  }

  lemma TokenIsLast(items: seq<Item>, live: map<Str, VersionEntry>, out: Page, n: nat)
    requires AscendingItems(items) && LiveObjects(items, live) && 0 < n < |items|
    requires out.objects == ObjectsOf(items[..n], live) && out.commonPrefixes == PrefixesOf(items[..n])
    requires out.token == Some(items[n - 1].Name())
    ensures OnPage(out, live, Object(out.token.value)) || OnPage(out, live, CommonPrefix(out.token.value))
  {
    assert items[..n][n - 1] == items[n - 1];
    ShownAre(items[..n], live, out, items[n - 1]);
  }

  /** One pass over the sorted keys gives exactly the page its items call for. */
  method ListObjectsV2(p: Params, keys: seq<Str>, live: map<Str, VersionEntry>) returns (out: Page)
    requires Ascending(keys)
    ensures p.maxKeys == 0 ==> out == Page([], [], false, None)
    ensures p.maxKeys > 0 ==> out == PageOf(Items(p, p.StartBound(), live, keys), live, p.maxKeys)
    ensures p.maxKeys > 0 ==> Answers(p, keys, live, out)
  {
    if p.maxKeys > 0 {
      PageAnswers(p, keys, live);
    }
    hide Answers;
    out := Page([], [], false, None);
    if p.maxKeys == 0 {
      return;
    }
    var start := p.StartBound();
    ghost var items: seq<Item> := [];
    assert out == Partial(items, live) && items == Items(p, start, live, keys[..0]);
    hide Params.StartBound, Items, ObjectsOf, PrefixesOf, Ascending, Adds, ItemOf, Past;
    for i := 0 to |keys|
      invariant items == Items(p, start, live, keys[..i]) && |items| <= p.maxKeys
      invariant out == Partial(items, live) && |out.objects| + |out.commonPrefixes| == |items|
    {
      var key := keys[i];
      PassStep(p, start, live, keys, i);
      if Adds(p, start, live, out, key) {
        var item := ItemOf(p, key);
        if |out.objects| + |out.commonPrefixes| == p.maxKeys {
          FullPage(p, start, live, keys, i + 1, items, item);
          out := out.(truncated := true);
          return;
        }
        PartialAppend(items, item, live);
        out := WithItem(out, item, live);
        items := items + [item];
      }
    }
    assert keys[..|keys|] == keys;
    out := out.(token := None);
  }

  // ----- pagination -----

  lemma LaterBound(p: Params, t: Str)
    requires Past(p.StartBound(), t)
    ensures p.(token := Some(t)).StartBound() == Some(t)
  {
    if p.startAfter.Some? {
      LessTotal(p.startAfter.value, t);
      if p.token.Some? && Less(p.startAfter.value, p.token.value) {
        LessTransitive(p.startAfter.value, p.token.value, t);
      }
    }
  }

  /** Items past a later bound are the items past an earlier one, less those not past the later. */
  lemma {:induction false} ItemsPast(p: Params, start: Option<Str>, t: Str, live: map<Str, VersionEntry>, keys: seq<Str>, item: Item)
    requires Past(start, t)
    ensures item in Items(p, Some(t), live, keys) <==> item in Items(p, start, live, keys) && Less(t, item.Name())
  {
    ItemsAreExact(p, Some(t), live, keys, item);
    ItemsAreExact(p, start, live, keys, item);
    if start.Some? && Less(t, item.Name()) {
      LessTransitive(start.value, t, item.Name());
    }
  }

  lemma EmptyOrNot(b: seq<Item>)
    ensures b == [] || exists x :: x in b
  {
    if b != [] {
      assert b[0] in b;
    }
  }

  /** Ascending listings of the same items are the same listing. */
  lemma {:induction false} AscendingIsUnique(a: seq<Item>, b: seq<Item>)
    requires AscendingItems(a) && AscendingItems(b) && forall x :: x in a <==> x in b
    ensures a == b
    decreases |a|
  {
    if a == [] {
      EmptyOrNot(b);
    } else {
      assert a[0] in b;
      var i :| 0 <= i < |b| && b[i] == a[0];
      assert b[0] in a;
      var j :| 0 <= j < |a| && a[j] == b[0];
      if i > 0 && j > 0 {
        LessAsymmetric(a[0].Name(), a[j].Name());
      }
      assert a[0] == b[0];
      forall x ensures x in a[1..] <==> x in b[1..] {
        TailOf(a, x);
        TailOf(b, x);
      }
      AscendingIsUnique(a[1..], b[1..]);
      assert a == [a[0]] + a[1..] && b == [b[0]] + b[1..];
    }
  }

  lemma TailOf(a: seq<Item>, x: Item)
    requires AscendingItems(a) && a != []
    ensures x in a[1..] <==> x in a && x != a[0]
  {
    if x in a[1..] {
      var i :| 0 < i < |a| && a[i] == x;
      LessAsymmetric(a[0].Name(), a[i].Name());
    }
    if x in a && x != a[0] {
      var i :| 0 <= i < |a| && a[i] == x;
      assert a[1..][i - 1] == x;
    }
  }

  lemma DroppedAre(items: seq<Item>, m: nat, x: Item)
    requires AscendingItems(items) && 0 < m <= |items|
    ensures x in items[m..] <==> x in items && Less(items[m - 1].Name(), x.Name())
  {
    if x in items[m..] {
      var j :| m <= j < |items| && items[j] == x;
    }
    if x in items && Less(items[m - 1].Name(), x.Name()) {
      var i :| 0 <= i < |items| && items[i] == x;
      LessAsymmetric(items[m - 1].Name(), x.Name());
      assert items[m..][i - m] == x;
    }
  }

  /** Resuming after the `m`th item, whatever kind it is, lists exactly the items after it. */
  lemma ResumeAfter(p: Params, live: map<Str, VersionEntry>, keys: seq<Str>, m: nat)
    requires Ascending(keys)
    requires 0 < m <= |Items(p, p.StartBound(), live, keys)|
    ensures var items := Items(p, p.StartBound(), live, keys);
            var p' := p.(token := Some(items[m - 1].Name()));
            Items(p', p'.StartBound(), live, keys) == items[m..]
  {
    var start := p.StartBound();
    var items := Items(p, start, live, keys);
    var t := items[m - 1].Name();
    var p' := p.(token := Some(t));
    ItemsAreExact(p, start, live, keys, items[m - 1]);
    LaterBound(p, t);
    SameItems(p, p', Some(t), live, keys);
    var after := Items(p', Some(t), live, keys);
    ItemsAscend(p, start, live, keys);
    ItemsAscend(p', Some(t), live, keys);
    forall x: Item ensures x in after <==> x in items[m..] {
      ItemsPast(p, start, t, live, keys, x);
      DroppedAre(items, m, x);
    }
    AscendingIsUnique(after, items[m..]);
  }

  /** The bounds a request carries do not matter to what its keys fold to. */
  lemma {:induction false} SameItems(p: Params, p': Params, start: Option<Str>, live: map<Str, VersionEntry>, keys: seq<Str>)
    requires p'.prefix == p.prefix && p'.delimiter == p.delimiter
    ensures Items(p', start, live, keys) == Items(p, start, live, keys)
  {
    if keys != [] {
      SameItems(p, p', start, live, keys[..|keys| - 1]);
    }
  }

  /** All the pages a client gets by following continuation tokens, starting with request `p`. */
  ghost function Pages(p: Params, live: map<Str, VersionEntry>, keys: seq<Str>): (pages: seq<Page>)
    requires Ascending(keys) && p.maxKeys > 0
    decreases |Items(p, p.StartBound(), live, keys)|
  {
    var items := Items(p, p.StartBound(), live, keys);
    var page := PageOf(items, live, p.maxKeys);
    if !page.truncated then [page]
    else
      ResumeAfter(p, live, keys, p.maxKeys);
      [page] + Pages(p.(token := page.token), live, keys)
  }

  lemma {:induction false} ObjectsSplit(items: seq<Item>, live: map<Str, VersionEntry>, m: nat)
    requires m <= |items|
    ensures ObjectsOf(items, live) == ObjectsOf(items[..m], live) + ObjectsOf(items[m..], live)
    ensures PrefixesOf(items) == PrefixesOf(items[..m]) + PrefixesOf(items[m..])
  {
    if m < |items| {
      var init := items[..|items| - 1];
      ObjectsSplit(init, live, m);
      assert init[..m] == items[..m] && items[m..][..|items| - m - 1] == init[m..];
    } else {
      assert items[..m] == items && items[m..] == [];
    }
  }

  function AllObjects(pages: seq<Page>): seq<(Str, VersionEntry)> {
    if pages == [] then [] else pages[0].objects + AllObjects(pages[1..])
  }

  function AllPrefixes(pages: seq<Page>): seq<Str> {
    if pages == [] then [] else pages[0].commonPrefixes + AllPrefixes(pages[1..])
  }

  /** Following tokens ends, and the pages together are the unpaged listing: every item once, in order. */
  lemma {:induction false} PagesAreTheListing(p: Params, live: map<Str, VersionEntry>, keys: seq<Str>)
    requires Ascending(keys) && p.maxKeys > 0
    ensures var items := Items(p, p.StartBound(), live, keys);
            && AllObjects(Pages(p, live, keys)) == ObjectsOf(items, live)
            && AllPrefixes(Pages(p, live, keys)) == PrefixesOf(items)
    decreases |Items(p, p.StartBound(), live, keys)|
  {
    var items := Items(p, p.StartBound(), live, keys);
    var page := PageOf(items, live, p.maxKeys);
    if page.truncated {
      ResumeAfter(p, live, keys, p.maxKeys);
      PagesAreTheListing(p.(token := page.token), live, keys);
      ObjectsSplit(items, live, p.maxKeys);
      assert Pages(p, live, keys)[1..] == Pages(p.(token := page.token), live, keys);
    } else {
      assert Pages(p, live, keys)[1..] == [];
    }
  }

  /** Put together they are the answer to the same request with room for everything. */
  lemma PagesTogether(p: Params, live: map<Str, VersionEntry>, keys: seq<Str>, room: nat)
    requires Ascending(keys) && p.maxKeys > 0
    requires var pages := Pages(p, live, keys); room > 0 && room >= |AllObjects(pages)| + |AllPrefixes(pages)|
    ensures var pages := Pages(p, live, keys);
            Answers(p.(maxKeys := room), keys, live, Page(AllObjects(pages), AllPrefixes(pages), false, None))
  {
    hide Items, Params.StartBound, Answers, Pages, AllObjects, AllPrefixes, ObjectsOf, PrefixesOf, LiveObjects;
    var q := p.(maxKeys := room);
    PagesAreTheListing(p, live, keys);
    ItemsAreLive(p, keys, live);
    PageSize(Items(p, p.StartBound(), live, keys), live);
    assert q.StartBound() == p.StartBound() by { SameBound(p, q); }
    SameItems(p, q, p.StartBound(), live, keys);
    PageAnswers(q, keys, live);
  }

  lemma SameBound(p: Params, q: Params)
    requires p.token == q.token && p.startAfter == q.startAfter
    ensures p.StartBound() == q.StartBound()
  {
  }
}
