/**
 The byte-budgeted LRU cache with expiry (server/cache.go), first as a recency
 sequence of items, most recent first, then as the list-and-map object.
 */
module Cache {
  import opened Wrappers

  type Png = seq<bv8>

  datatype Item = Item(key: string, value: Png, expires: int)

  /** Instants and `ttl` are nanoseconds; `ttl <= 0` means that nothing expires. */
  datatype Limits = Limits(maxBytes: int, ttl: int)

  function Total(q: seq<Item>): nat {
    if q == [] then 0 else |q[0].value| + Total(q[1..])
  }

  /** Position of `key`, or |q| when it is absent. */
  function Locate(q: seq<Item>, key: string): (i: nat)
    ensures i <= |q|
    ensures i < |q| ==> q[i].key == key
    ensures forall j :: 0 <= j < i ==> q[j].key != key
  {
    if q == [] || q[0].key == key then 0 else 1 + Locate(q[1..], key)
  }

  function RemoveAt<T>(q: seq<T>, i: nat): seq<T>
    requires i < |q|
  {
    q[..i] + q[i + 1..]
  }

  function Without(q: seq<Item>, key: string): seq<Item> {
    var i := Locate(q, key);
    if i < |q| then RemoveAt(q, i) else q
  }

  /** Drops items from the back until the budget holds. */
  function Fit(q: seq<Item>, budget: nat): seq<Item>
    decreases |q|
  {
    if Total(q) <= budget then q else Fit(q[..|q| - 1], budget)
  }

  function GetSpec(c: Limits, q: seq<Item>, key: string, now: int): (seq<Item>, Option<Png>) {
    var i := Locate(q, key);
    if c.maxBytes <= 0 || i == |q| then (q, None)
    else if c.ttl > 0 && now > q[i].expires then (Without(q, key), None)
    else ([q[i]] + Without(q, key), Some(q[i].value))
  }

  predicate Accepted(c: Limits, value: Png) {
    0 < |value| <= c.maxBytes
  }

  /** The item for `key`, new or updated, moves to the front. */
  function Stored(c: Limits, q: seq<Item>, key: string, value: Png, now: int): seq<Item> {
    var i := Locate(q, key);
    var expires := if c.ttl > 0 then now + c.ttl else if i < |q| then q[i].expires else 0;
    [Item(key, value, expires)] + Without(q, key)
  }

  function SetSpec(c: Limits, q: seq<Item>, key: string, value: Png, now: int): seq<Item> {
    if !Accepted(c, value) then q
    else
      Fit(Stored(c, q, key, value, now), c.maxBytes)
  }

  ghost predicate Distinct(q: seq<Item>) {
    forall i, j :: 0 <= i < j < |q| ==> q[i].key != q[j].key
  }

  /** What every reachable cache satisfies. */
  ghost predicate Sound(c: Limits, q: seq<Item>) {
    && Distinct(q)
    && (forall x :: x in q ==> 0 < |x.value|)
    && (if c.maxBytes <= 0 then q == [] else Total(q) <= c.maxBytes)
  }

  lemma LocateUnique(q: seq<Item>, i: nat)
    requires i < |q| && forall j :: 0 <= j < i ==> q[j].key != q[i].key
    ensures Locate(q, q[i].key) == i
  {}

  // ---- Totals and eviction -----------------------------------------------------

  lemma {:induction false} TotalAppend(p: seq<Item>, q: seq<Item>)
    ensures Total(p + q) == Total(p) + Total(q)
  {
    if p == [] {
      assert p + q == q;
    } else {
      assert (p + q)[1..] == p[1..] + q;
      TotalAppend(p[1..], q);
    }
  }

  lemma TotalRemove(q: seq<Item>, i: nat)
    requires i < |q|
    ensures Total(RemoveAt(q, i)) == Total(q) - |q[i].value|
  {
    assert q == q[..i] + ([q[i]] + q[i + 1..]);
    TotalAppend(q[..i], [q[i]] + q[i + 1..]);
    TotalAppend([q[i]], q[i + 1..]);
    TotalAppend(q[..i], q[i + 1..]);
  }

  /** The front part of length `k` fits and one more item would not. */
  ghost predicate LongestFit(q: seq<Item>, budget: nat, k: nat) {
    k <= |q| && Total(q[..k]) <= budget && (k < |q| ==> Total(q[..k + 1]) > budget)
  }

  lemma TotalPrefix(q: seq<Item>, j: nat, k: nat)
    requires j <= k <= |q|
    ensures Total(q[..j]) <= Total(q[..k])
  {
    assert q[..k] == q[..j] + q[j..k];
    TotalAppend(q[..j], q[j..k]);
  }

  /** Eviction leaves exactly the longest front part that fits the budget. */
  lemma {:induction false} FitIsLongest(q: seq<Item>, budget: nat)
    ensures |Fit(q, budget)| <= |q| && Fit(q, budget) == q[..|Fit(q, budget)|]
    ensures LongestFit(q, budget, |Fit(q, budget)|)
    decreases |q|
  {
    if Total(q) <= budget {
      assert q[..|q|] == q;
    } else {
      var n := |q| - 1;
      FitIsLongest(q[..n], budget);
      var k := |Fit(q, budget)|;
      assert q[..n][..k] == q[..k];
      if k < n {
        assert q[..n][..k + 1] == q[..k + 1];
      } else {
        assert q[..n + 1] == q;
      }
    }
  }

  lemma LongestFitUnique(q: seq<Item>, budget: nat, k: nat)
    requires LongestFit(q, budget, k)
    ensures Fit(q, budget) == q[..k]
  {
    FitIsLongest(q, budget);
    var f := |Fit(q, budget)|;
    if f < k { TotalPrefix(q, f + 1, k); }
    if k < f { TotalPrefix(q, k + 1, f); }
  }

  /** Set leaves the entry just set at the front: eviction never removes it. */
  lemma SetKeepsNewest(c: Limits, q: seq<Item>, key: string, value: Png, now: int)
    requires Accepted(c, value)
    ensures var q' := SetSpec(c, q, key, value, now);
            q' != [] && q'[0].key == key && q'[0].value == value && (c.ttl > 0 ==> q'[0].expires == now + c.ttl)
  {
    var all := Stored(c, q, key, value, now);
    FitIsLongest(all, c.maxBytes);
    assert all[..1] == [all[0]] && Total([all[0]]) == |value|;
  }

  lemma WithoutDistinct(q: seq<Item>, key: string)
    requires Distinct(q)
    ensures Distinct(Without(q, key))
    ensures forall x :: x in Without(q, key) ==> x in q && x.key != key
  {}

  lemma WithoutAbsent(q: seq<Item>, key: string)
    requires forall i :: 0 <= i < |q| ==> q[i].key != key
    ensures Locate(q, key) == |q| && Without(q, key) == q
  {}

  lemma NothingTotal()
    ensures Total([]) == 0
  {}

  lemma OneTotal(x: Item)
    ensures Total([x]) == |x.value|
  {}

  lemma WithoutTotal(q: seq<Item>, key: string)
    ensures var i := Locate(q, key); Total(Without(q, key)) == Total(q) - if i < |q| then |q[i].value| else 0
  {
    if Locate(q, key) < |q| { TotalRemove(q, Locate(q, key)); }
  }

  lemma GetKeepsSound(c: Limits, q: seq<Item>, key: string, now: int)
    requires Sound(c, q)
    ensures Sound(c, GetSpec(c, q, key, now).0)
  {
    hide Total, Locate, Without;
    WithoutDistinct(q, key);
    WithoutTotal(q, key);
    var i := Locate(q, key);
    if i < |q| {
      OneTotal(q[i]);
      TotalAppend([q[i]], Without(q, key));
    }
  }

  lemma SetKeepsSound(c: Limits, q: seq<Item>, key: string, value: Png, now: int)
    requires Sound(c, q)
    ensures Sound(c, SetSpec(c, q, key, value, now))
  {
    hide Total, Fit, Locate;
    if Accepted(c, value) {
      WithoutDistinct(q, key);
      FitIsLongest(Stored(c, q, key, value, now), c.maxBytes);
    }
  }

  lemma ReplaceAt(q: seq<Item>, i: nat, x: Item)
    requires i < |q| && i == Locate(q, x.key)
    ensures Total(q[i := x]) == Total(q) - |q[i].value| + |x.value|
    ensures Without(q[i := x], x.key) == Without(q, x.key)
  {
    var q' := q[i := x];
    assert RemoveAt(q', i) == RemoveAt(q, i);
    TotalRemove(q, i);
    TotalRemove(q', i);
    LocateUnique(q', i);
  }

  // ---- The object -----------------------------------------------------------------

  class Entry {
    const key: string
    var value: Png
    var size: int
    var expires: int

    constructor (key: string, value: Png, size: int, expires: int)
      ensures this.key == key && this.value == value && this.size == size && this.expires == expires
    {
      this.key, this.value, this.size, this.expires := key, value, size, expires;
    }

    function AsItem(): Item
      reads this
    {
      Item(key, value, expires)
    }
  }

  ghost function ItemsOf(ll: seq<Entry>): (q: seq<Item>)
    reads ll
    ensures |q| == |ll|
  {
    seq(|ll|, i requires 0 <= i < |ll| reads ll => ll[i].AsItem())
  }

  ghost predicate Sized(ll: seq<Entry>)
    reads ll
  {
    forall e :: e in ll ==> e.size == |e.value|
  }

  lemma ItemsRemove(ll: seq<Entry>, i: nat)
    requires i < |ll|
    ensures ItemsOf(RemoveAt(ll, i)) == RemoveAt(ItemsOf(ll), i)
    ensures Total(ItemsOf(RemoveAt(ll, i))) == Total(ItemsOf(ll)) - |ll[i].value|
    ensures Sized(ll) ==> Sized(RemoveAt(ll, i))
  {
    assert ItemsOf(RemoveAt(ll, i)) == RemoveAt(ItemsOf(ll), i);
    TotalRemove(ItemsOf(ll), i);
  }

  lemma ItemsPush(e: Entry, ll: seq<Entry>)
    ensures ItemsOf([e] + ll) == [e.AsItem()] + ItemsOf(ll)
    ensures Total(ItemsOf([e] + ll)) == |e.value| + Total(ItemsOf(ll))
    ensures Sized(ll) && e.size == |e.value| ==> Sized([e] + ll)
  {
    assert ItemsOf([e] + ll) == [e.AsItem()] + ItemsOf(ll);
    TotalAppend([e.AsItem()], ItemsOf(ll));
  }

  /** The list and the map hold the same entries, one for each key. */
  ghost predicate Indexed(ll: seq<Entry>, items: map<string, Entry>) {
    && (forall i, j :: 0 <= i < j < |ll| ==> ll[i].key != ll[j].key)
    && (forall i :: 0 <= i < |ll| ==> ll[i].key in items && items[ll[i].key] == ll[i])
    && (forall k :: k in items ==> items[k] in ll && items[k].key == k)
  }

  lemma IndexedRemove(ll: seq<Entry>, items: map<string, Entry>, i: nat)
    requires Indexed(ll, items) && i < |ll|
    ensures Indexed(RemoveAt(ll, i), items - {ll[i].key})
    ensures forall e :: e in RemoveAt(ll, i) ==> e in ll
  {
    var rest := RemoveAt(ll, i);
    forall k | k in items && k != ll[i].key ensures items[k] in rest {
      var j :| 0 <= j < |ll| && ll[j] == items[k];
      assert rest[if j < i then j else j - 1] == ll[j];
    }
  }

  lemma IndexedPush(ll: seq<Entry>, items: map<string, Entry>, e: Entry)
    requires Indexed(ll, items) && e.key !in items
    ensures Indexed([e] + ll, items[e.key := e])
  {
    forall k | k in items ensures items[k] in [e] + ll {
      var j :| 0 <= j < |ll| && ll[j] == items[k];
      assert ([e] + ll)[j + 1] == ll[j];
    }
  }

  lemma IndexedToFront(ll: seq<Entry>, items: map<string, Entry>, i: nat)
    requires Indexed(ll, items) && i < |ll|
    ensures Indexed([ll[i]] + RemoveAt(ll, i), items)
    ensures forall e :: e in [ll[i]] + RemoveAt(ll, i) ==> e in ll
  {
    IndexedRemove(ll, items, i);
    IndexedPush(RemoveAt(ll, i), items - {ll[i].key}, ll[i]);
    assert items == (items - {ll[i].key})[ll[i].key := ll[i]];
  }

  lemma IndexedUnique(ll: seq<Entry>, items: map<string, Entry>, i: nat, j: nat)
    requires Indexed(ll, items) && i < |ll| && j < |ll| && ll[i].key == ll[j].key
    ensures i == j
  {}

  class PngCache {
    const maxBytes: int
    const ttl: int
    var curBytes: int
    var ll: seq<Entry>
    var items: map<string, Entry>

    ghost function Settings(): Limits {
      Limits(maxBytes, ttl)
    }

    ghost function Contents(): (q: seq<Item>)
      reads this, ll
    {
      ItemsOf(ll)
    }

    /** List, map and byte counter agree; the budget may be exceeded for the moment. */
    ghost predicate Linked()
      reads this, ll
    {
      && Indexed(ll, items)
      && Sized(ll)
      && curBytes == Total(Contents())
    }

    ghost predicate Valid()
      reads this, ll
    {
      Linked() && Sound(Settings(), Contents())
    }

    constructor (maxBytes: int, ttl: int)
      ensures Valid() && Contents() == []
      ensures Settings() == if maxBytes <= 0 then Limits(0, 0) else Limits(maxBytes, ttl)
    {
      this.maxBytes := if maxBytes <= 0 then 0 else maxBytes;
      this.ttl := if maxBytes <= 0 then 0 else ttl;
      curBytes, ll, items := 0, [], map[];
    }

    method Get(key: string, now: int) returns (hit: Option<Png>)
      requires Valid()
      modifies this
      ensures Valid() && forall e :: e in ll ==> e in old(ll)
      ensures (Contents(), hit) == GetSpec(Settings(), old(Contents()), key, now)
    {
      GetKeepsSound(Settings(), Contents(), key, now);
      if maxBytes <= 0 {
        return None;
      }
      ghost var at := Located(key);
      if key in items {
        var ent := items[key];
        if ttl > 0 && now > ent.expires {
          RemoveElement(ent);
          return None;
        }
        MoveToFront(ent);
        return Some(ent.value);
      }
      return None;
    }

    method Set(key: string, value: Png, now: int)
      requires Valid()
      modifies this, ll
      ensures Valid() && forall e :: e in ll ==> e in old(ll) || fresh(e)
      ensures Contents() == SetSpec(Settings(), old(Contents()), key, value, now)
    {
      ghost var before := Contents();
      SetKeepsSound(Settings(), before, key, value, now);
      var size := |value|;
      if maxBytes <= 0 || size <= 0 || size > maxBytes {
        return;
      }
      Store(key, value, now);
      Evict();
    }

    method Store(key: string, value: Png, now: int)
      requires Linked()
      modifies this, ll
      ensures Linked() && forall e :: e in ll ==> e in old(ll) || fresh(e)
      ensures Contents() == Stored(Settings(), old(Contents()), key, value, now)
    {
      hide Total, Locate, Without;
      ghost var before := Contents();
      ghost var at := Located(key);
      if key in items {
        var ent := items[key];
        assert before[at] == ent.AsItem();
        Overwrite(ent, value, now);
        MoveToFront(ent);
        assert Contents() == [ent.AsItem()] + Without(before, key);
      } else {
        WithoutAbsent(before, key);
        PushFront(key, value, now);
      }
    }

    /** The part of Set that updates an existing entry in place. */
    method Overwrite(ent: Entry, value: Png, now: int)
      requires Linked() && ent in ll
      modifies `curBytes, ent
      ensures Linked()
      ensures ent.AsItem() == Item(ent.key, value, if ttl > 0 then now + ttl else old(ent.expires))
      ensures Without(Contents(), ent.key) == Without(old(Contents()), ent.key)
    {
      ghost var before := Contents();
      ghost var at := Located(ent.key);
      curBytes := curBytes - ent.size;
      ent.value := value;
      ent.size := |value|;
      if ttl > 0 {
        ent.expires := now + ttl;
      }
      curBytes := curBytes + |value|;
      assert Contents() == before[at := ent.AsItem()];
      ReplaceAt(before, at, ent.AsItem());
      assert Sized(ll);
    }

    /** The part of Set that adds an entry for a new key. */
    method PushFront(key: string, value: Png, now: int)
      requires Linked() && key !in items
      modifies this
      ensures Linked() && forall e :: e in ll ==> e in old(ll) || fresh(e)
      ensures Contents() == [Item(key, value, if ttl > 0 then now + ttl else 0)] + old(Contents())
    {
      var ent := new Entry(key, value, |value|, if ttl > 0 then now + ttl else 0);
      assert ItemsOf(ll) == old(ItemsOf(ll));
      Link(ent);
    }

    method Link(ent: Entry)
      requires Linked() && ent.key !in items && ent.size == |ent.value|
      modifies this
      ensures Linked() && ll == [ent] + old(ll)
      ensures Contents() == [ent.AsItem()] + old(Contents())
    {
      IndexedPush(ll, items, ent);
      ItemsPush(ent, ll);
      ll := [ent] + ll;
      items := items[ent.key := ent];
      curBytes := curBytes + ent.size;
    }

    /** Where the list holds `key`; the map knows the same entry. */
    lemma Located(key: string) returns (at: nat)
      requires Linked()
      ensures at == Locate(Contents(), key)
      ensures key in items <==> at < |ll|
      ensures at < |ll| ==> items[key] == ll[at] && ll[at].key == key
    {
      at := Locate(Contents(), key);
      if key in items {
        var i :| 0 <= i < |ll| && ll[i] == items[key];
        assert Contents()[i].key == key;
      }
      assert at < |ll| ==> Contents()[at].key == ll[at].key;
    }

    lemma PlaceOf(ent: Entry) returns (at: nat)
      requires Linked() && ent in ll
      ensures at == Locate(Contents(), ent.key) < |ll| && ll[at] == ent
    {
      at := Located(ent.key);
    }

    /** container/list MoveToFront. */
    method MoveToFront(ent: Entry)
      requires Linked() && ent in ll
      modifies `ll
      ensures Linked() && forall e :: e in ll ==> e in old(ll)
      ensures Contents() == [ent.AsItem()] + Without(old(Contents()), ent.key)
    {
      hide Indexed, Total, Locate;
      ghost var before := Contents();
      ghost var at := PlaceOf(ent);
      var i := Index(ent);
      IndexedUnique(ll, items, i, at);
      IndexedToFront(ll, items, i);
      ItemsRemove(ll, i);
      ItemsPush(ent, RemoveAt(ll, i));
      ll := [ent] + RemoveAt(ll, i);
    }

    method Index(ent: Entry) returns (i: nat)
      requires ent in ll
      ensures i < |ll| && ll[i] == ent
    {
      i := 0;
      while ll[i] != ent
        invariant i < |ll| && ent !in ll[..i]
        decreases |ll| - i
      {
        i := i + 1;
        assert i < |ll| by { assert ll[..|ll|] == ll; }
      }
    }

    method RemoveElement(ent: Entry)
      requires Linked() && ent in ll
      modifies this
      ensures Linked() && forall e :: e in ll ==> e in old(ll)
      ensures Contents() == Without(old(Contents()), ent.key)
    {
      hide Indexed, Total, Locate;
      ghost var before := Contents();
      ghost var at := PlaceOf(ent);
      var i := Index(ent);
      IndexedUnique(ll, items, i, at);
      IndexedRemove(ll, items, i);
      ItemsRemove(ll, i);
      ghost var rest := ItemsOf(RemoveAt(ll, i));
      items := items - {ent.key};
      curBytes := curBytes - ent.size;
      ll := RemoveAt(ll, i);
      assert ItemsOf(ll) == rest;
    }

    /** The exit for an empty list is never taken: an empty list holds no bytes. */
    method Evict()
      requires Linked() && maxBytes > 0
      modifies this
      ensures Linked() && forall e :: e in ll ==> e in old(ll)
      ensures Contents() == Fit(old(Contents()), maxBytes)
    {
      hide Total, Locate;
      NothingTotal();
      while curBytes > maxBytes
        invariant Linked() && forall e :: e in ll ==> e in old(ll)
        invariant Fit(Contents(), maxBytes) == Fit(old(Contents()), maxBytes)
        decreases |ll|
      {
        if |ll| == 0 {
          assert false;
          return;
        }
        ghost var before := Contents();
        var ele := ll[|ll| - 1];
        ghost var at := Located(ele.key);
        RemoveElement(ele);
        assert RemoveAt(before, |before| - 1) == before[..|before| - 1];
      }
    }
  }
}
