/**
 Whole runs of the cache: any interleaving of `Get` and `Set`, in lock order.
 */
module CacheRuns {
  import opened Wrappers
  import opened Cache

  datatype Op = Get(key: string, now: int) | Set(key: string, value: Png, now: int)

  function Apply(c: Limits, q: seq<Item>, op: Op): seq<Item> {
    match op
    case Get(key, now) => GetSpec(c, q, key, now).0
    case Set(key, value, now) => SetSpec(c, q, key, value, now)
  }

  function Run(c: Limits, ops: seq<Op>): seq<Item> {
    if ops == [] then [] else Apply(c, Run(c, ops[..|ops| - 1]), ops[|ops| - 1])
  }

  /** Value and time of the last accepted Set of `key`. */
  function LastSet(c: Limits, ops: seq<Op>, key: string): Option<(Png, int)> {
    if ops == [] then None
    else
      var op := ops[|ops| - 1];
      if op.Set? && op.key == key && Accepted(c, op.value) then Some((op.value, op.now))
      else LastSet(c, ops[..|ops| - 1], key)
  }

  /** `item` is what the last accepted Set of its key stored. */
  ghost predicate Current(c: Limits, ops: seq<Op>, item: Item) {
    var last := LastSet(c, ops, item.key);
    last.Some? && last.value.0 == item.value && (c.ttl > 0 ==> item.expires == last.value.1 + c.ttl)
  }

  /** `item` is what `op` just stored, or was there before and `op` did not store its key. */
  ghost predicate Explained(c: Limits, q: seq<Item>, op: Op, item: Item) {
    if op.Set? && Accepted(c, op.value) && item.key == op.key
    then item.value == op.value && (c.ttl > 0 ==> item.expires == op.now + c.ttl)
    else item in q
  }

  lemma ApplyKeepsSound(c: Limits, q: seq<Item>, op: Op)
    requires Sound(c, q)
    ensures Sound(c, Apply(c, q, op))
    ensures forall item :: item in Apply(c, q, op) ==> Explained(c, q, op, item)
  {
    WithoutDistinct(q, op.key);
    match op
    case Get(key, now) =>
      GetKeepsSound(c, q, key, now);
    case Set(key, value, now) =>
      SetKeepsSound(c, q, key, value, now);
      if Accepted(c, value) { FitIsLongest(Stored(c, q, key, value, now), c.maxBytes); }
  }

  lemma {:induction false} RunSound(c: Limits, ops: seq<Op>)
    ensures Sound(c, Run(c, ops))
    ensures forall item :: item in Run(c, ops) ==> Current(c, ops, item)
  {
    if ops != [] {
      var n := |ops| - 1;
      RunSound(c, ops[..n]);
      ApplyKeepsSound(c, Run(c, ops[..n]), ops[n]);
      forall item | item in Run(c, ops) ensures Current(c, ops, item) {
        assert Explained(c, Run(c, ops[..n]), ops[n], item);
        assert item in Run(c, ops[..n]) ==> Current(c, ops[..n], item);
      }
    }
  }

  /**
   A held key is found exactly until ttl after its last accepted Set, and what is found is
   the value of that Set.
   */
  lemma HitIsLastSet(c: Limits, ops: seq<Op>, key: string, now: int)
    ensures var held := Locate(Run(c, ops), key) < |Run(c, ops)|;
            var hit := GetSpec(c, Run(c, ops), key, now).1;
            && (held ==> LastSet(c, ops, key).Some?)
            && (hit.Some? <==> held && (c.ttl > 0 ==> now - LastSet(c, ops, key).value.1 <= c.ttl))
            && (hit.Some? ==> hit.value == LastSet(c, ops, key).value.0)
  {
    RunSound(c, ops);
    var i := Locate(Run(c, ops), key);
    if i < |Run(c, ops)| {
      assert Run(c, ops)[i] in Run(c, ops);
    }
  }

  // ---- The cache as a memo table --------------------------------------------------

  /** One use of a key, with the clock readings of its lookup and, on a miss, of its store. */
  datatype Use = Use(key: string, lookup: int, store: int)

  /** The handler's use: look the key up and, on a miss, store what was rendered for it. */
  function Access(c: Limits, q: seq<Item>, png: string -> Png, u: Use): seq<Item> {
    var (q', hit) := GetSpec(c, q, u.key, u.lookup);
    if hit.Some? then q' else SetSpec(c, q', u.key, png(u.key), u.store)
  }

  function Accesses(c: Limits, png: string -> Png, uses: seq<Use>): seq<Item> {
    if uses == [] then []
    else Access(c, Accesses(c, png, uses[..|uses| - 1]), png, uses[|uses| - 1])
  }

  lemma AccessesSnoc(c: Limits, png: string -> Png, uses: seq<Use>, u: Use)
    ensures Accesses(c, png, uses + [u]) == Access(c, Accesses(c, png, uses), png, u)
  {
    assert (uses + [u])[..|uses|] == uses;
  }

  function Picture(png: string -> Png, key: string): Item {
    Item(key, png(key), 0)
  }

  /** All keys used so far, as items without an expiry, most recently used first. */
  function Recency(png: string -> Png, uses: seq<Use>): seq<Item> {
    if uses == [] then []
    else
      var key := uses[|uses| - 1].key;
      [Picture(png, key)] + Without(Recency(png, uses[..|uses| - 1]), key)
  }

  /** The cache is on and every key has one picture, which fits. */
  ghost predicate EachFits(c: Limits, png: string -> Png, uses: seq<Use>) {
    c.maxBytes > 0 && forall i :: 0 <= i < |uses| ==> Accepted(c, png(uses[i].key))
  }

  ghost predicate Pictures(png: string -> Png, q: seq<Item>) {
    Distinct(q) && forall x :: x in q ==> x == Picture(png, x.key)
  }

  lemma {:induction false} RecencyIsDistinct(png: string -> Png, uses: seq<Use>)
    ensures Pictures(png, Recency(png, uses))
  {
    if uses != [] {
      RecencyIsDistinct(png, uses[..|uses| - 1]);
      WithoutDistinct(Recency(png, uses[..|uses| - 1]), uses[|uses| - 1].key);
    }
  }

  // ---- Contents without their expiry ---------------------------------------------------

  /** Keys and values in order, whenever they expire. */
  function Bare(q: seq<Item>): (b: seq<Item>)
    ensures |b| == |q| && forall i :: 0 <= i < |q| ==> b[i] == q[i].(expires := 0)
  {
    seq(|q|, i requires 0 <= i < |q| => q[i].(expires := 0))
  }

  lemma BareLocate(q: seq<Item>, key: string)
    ensures Locate(Bare(q), key) == Locate(q, key)
  {
    var i := Locate(q, key);
    if i < |q| { LocateUnique(Bare(q), i); }
  }

  lemma BareWithout(q: seq<Item>, key: string)
    ensures Bare(Without(q, key)) == Without(Bare(q), key)
  {
    hide Locate;
    BareLocate(q, key);
  }

  lemma {:induction false} BareTotal(q: seq<Item>)
    ensures Total(Bare(q)) == Total(q)
  {
    if q != [] {
      BareTotal(q[1..]);
      assert Bare(q)[1..] == Bare(q[1..]);
    }
  }

  lemma {:induction false} BareFit(q: seq<Item>, budget: nat)
    ensures Bare(Fit(q, budget)) == Fit(Bare(q), budget)
    decreases |q|
  {
    hide Total;
    BareTotal(q);
    if Total(q) > budget {
      NothingTotal();
      assert q != [];
      BareFit(q[..|q| - 1], budget);
      assert Bare(q)[..|q| - 1] == Bare(q[..|q| - 1]);
    }
  }

  // ---- Recency order ------------------------------------------------------------------

  /** Moving an item within the part that is held changes neither the part's total nor what comes after. */
  lemma TotalToFront(q: seq<Item>, i: nat, k: nat)
    requires i < k <= |q|
    ensures ([q[i]] + RemoveAt(q, i))[..k] == [q[i]] + RemoveAt(q[..k], i)
    ensures Total(([q[i]] + RemoveAt(q, i))[..k]) == Total(q[..k])
  {
    assert ([q[i]] + RemoveAt(q, i))[..k] == [q[i]] + RemoveAt(q[..k], i);
    assert q[..k][i] == q[i];
    TotalRemove(q[..k], i);
    TotalAppend([q[i]], RemoveAt(q[..k], i));
  }

  lemma HitRefits(q: seq<Item>, budget: nat, i: nat, p: nat)
    requires LongestFit(q, budget, p) && i < p
    ensures Fit([q[i]] + RemoveAt(q, i), budget) == [q[i]] + RemoveAt(q[..p], i)
  {
    TotalToFront(q, i, p);
    if p < |q| { TotalToFront(q, i, p + 1); }
    LongestFitUnique([q[i]] + RemoveAt(q, i), budget, p);
  }

  lemma MissRefits(q: seq<Item>, budget: nat, front: Item, p: nat)
    requires LongestFit(q, budget, p) && p <= Locate(q, front.key)
    requires Locate(q, front.key) < |q| ==> q[Locate(q, front.key)] == front
    ensures Fit([front] + q[..p], budget) == Fit([front] + Without(q, front.key), budget)
  {
    var pushed, moved := [front] + q[..p], [front] + Without(q, front.key);
    FitIsLongest(pushed, budget);
    hide Fit, Total, Locate;
    var k := |Fit(pushed, budget)|;
    var rest := Without(q, front.key);
    assert rest[..p] == q[..p];
    assert pushed[..k] == moved[..k];
    if k <= p {
      assert pushed[..k + 1] == moved[..k + 1];
    } else if p < |q| {
      assert pushed[..k] == pushed;
      MissLeavesNoRoom(q, budget, front, p);
    }
    LongestFitUnique(moved, budget, k);
  }

  lemma MissLeavesNoRoom(q: seq<Item>, budget: nat, front: Item, p: nat)
    requires LongestFit(q, budget, p) && p < |q| && p <= Locate(q, front.key)
    requires Locate(q, front.key) < |q| ==> q[Locate(q, front.key)] == front
    requires Total([front] + q[..p]) <= budget
    ensures var moved := [front] + Without(q, front.key);
            p + 1 < |moved| ==> Total(moved[..p + 2]) > budget
  {
    hide Total, Locate;
    OneTotal(front);
    OneTotal(q[p]);
    TotalAppend([front], q[..p]);
    assert q[..p + 1] == q[..p] + [q[p]];
    TotalAppend(q[..p], [q[p]]);
    assert Locate(q, front.key) != p;
    TotalAppend([front], q[..p + 1]);
    var rest := Without(q, front.key);
    if p < |rest| {
      assert rest[..p + 1] == q[..p + 1];
      assert ([front] + rest)[..p + 2] == [front] + rest[..p + 1];
    }
  }

  lemma LocateInPrefix(q: seq<Item>, key: string, p: nat)
    requires p <= |q|
    ensures Locate(q[..p], key) == if Locate(q, key) < p then Locate(q, key) else p
  {
    var i := Locate(q, key);
    if i < p {
      LocateUnique(q[..p], i);
    }
  }

  /** Moving or adding an item to the front of what is held gives what is held of the new recency order. */
  lemma UseRefits(q: seq<Item>, budget: nat, front: Item)
    requires Locate(q, front.key) < |q| ==> q[Locate(q, front.key)] == front
    ensures Fit([front] + Without(Fit(q, budget), front.key), budget) == Fit([front] + Without(q, front.key), budget)
  {
    hide Fit, Total, Locate;
    var i, p := Locate(q, front.key), |Fit(q, budget)|;
    FitIsLongest(q, budget);
    LocateInPrefix(q, front.key, p);
    if i < p {
      HitRefits(q, budget, i, p);
      FitTwice([front] + RemoveAt(q, i), budget);
    } else {
      MissRefits(q, budget, front, p);
    }
  }

  lemma FitTwice(q: seq<Item>, budget: nat)
    ensures Fit(Fit(q, budget), budget) == Fit(q, budget)
  {
    FitIsLongest(q, budget);
  }

  /** What is held is a part of the pictures, each key once, within the budget. */
  ghost predicate Holds(c: Limits, png: string -> Png, q: seq<Item>) {
    Distinct(q) && Total(q) <= c.maxBytes && forall i :: 0 <= i < |q| ==> q[i].value == png(q[i].key)
  }

  /**
   One use, whatever the readings: hit, expired or missing, the key moves to the front and
   the rest follows as far as it fits.
   */
  lemma AccessBare(c: Limits, q: seq<Item>, png: string -> Png, u: Use)
    requires Holds(c, png, q) && Accepted(c, png(u.key))
    ensures Bare(Access(c, q, png, u)) == Fit([Picture(png, u.key)] + Without(Bare(q), u.key), c.maxBytes)
  {
    hide Total, Fit, Locate;
    var i, rest, front := Locate(q, u.key), Without(q, u.key), Picture(png, u.key);
    BareWithout(q, u.key);
    if i < |q| && !(c.ttl > 0 && u.lookup > q[i].expires) {
      var moved := [q[i]] + rest;
      assert Bare(moved) == [front] + Bare(rest);
      WithoutTotal(q, u.key);
      OneTotal(q[i]);
      TotalAppend([q[i]], rest);
      BareTotal(moved);
      FitsWhole(Bare(moved), c.maxBytes);
    } else {
      WithoutAgain(q, u.key);
      var stored := Stored(c, rest, u.key, png(u.key), u.store);
      assert Bare(stored) == [front] + Bare(rest);
      BareFit(stored, c.maxBytes);
      MissStores(c, q, png, u);
    }
  }

  lemma FitsWhole(q: seq<Item>, budget: nat)
    requires Total(q) <= budget
    ensures Fit(q, budget) == q
  {}

  lemma WithoutAgain(q: seq<Item>, key: string)
    requires Distinct(q)
    ensures Locate(Without(q, key), key) == |Without(q, key)| && Without(Without(q, key), key) == Without(q, key)
  {
    WithoutDistinct(q, key);
    var rest := Without(q, key);
    assert forall j :: 0 <= j < |rest| ==> rest[j] in rest;
  }

  /** A key that is not found, missing or expired, is stored in front of the others. */
  lemma MissStores(c: Limits, q: seq<Item>, png: string -> Png, u: Use)
    requires c.maxBytes > 0 && Accepted(c, png(u.key))
    requires Locate(q, u.key) == |q| || (c.ttl > 0 && u.lookup > q[Locate(q, u.key)].expires)
    ensures Access(c, q, png, u) == Fit(Stored(c, Without(q, u.key), u.key, png(u.key), u.store), c.maxBytes)
  {
    hide Fit, Locate;
  }

  lemma BareHolds(c: Limits, png: string -> Png, q: seq<Item>, r: seq<Item>)
    requires c.maxBytes > 0 && Pictures(png, r) && Bare(q) == Fit(r, c.maxBytes)
    ensures Holds(c, png, q)
  {
    FitIsLongest(r, c.maxBytes);
    BareTotal(q);
    hide Fit, Total, Bare;
    forall i | 0 <= i < |q| ensures q[i].key == r[i].key && q[i].value == png(q[i].key) {
      assert Bare(q)[i] == r[i] && r[i] in r;
    }
  }

  /**
   With one picture per key, for any expiry and any clock readings, the cache always holds
   exactly the longest front part of the recency order of all keys ever used that fits.
   */
  lemma {:induction false} CacheIsRecencyPrefix(c: Limits, png: string -> Png, uses: seq<Use>)
    requires EachFits(c, png, uses)
    ensures Bare(Accesses(c, png, uses)) == Fit(Recency(png, uses), c.maxBytes)
  {
    hide Access, Locate;
    if uses == [] {
      assert Total([]) == 0;
    } else {
      var n := |uses| - 1;
      var q, r, u := Accesses(c, png, uses[..n]), Recency(png, uses[..n]), uses[n];
      assert EachFits(c, png, uses[..n]);
      CacheIsRecencyPrefix(c, png, uses[..n]);
      RecencyIsDistinct(png, uses[..n]);
      BareHolds(c, png, q, r);
      AccessBare(c, q, png, u);
      assert Locate(r, u.key) < |r| ==> r[Locate(r, u.key)] in r;
      UseRefits(r, c.maxBytes, Picture(png, u.key));
    }
  }

  lemma {:induction false} FitGrows(q: seq<Item>, small: nat, large: nat)
    requires small <= large
    ensures Fit(q, small) <= Fit(q, large)
  {
    FitIsLongest(q, small);
    FitIsLongest(q, large);
    var j, k := |Fit(q, small)|, |Fit(q, large)|;
    if k < j { TotalPrefix(q, k + 1, j); }
  }

  lemma LongerLocates(q: seq<Item>, longer: seq<Item>, key: string)
    requires q <= longer
    ensures Locate(q, key) < |q| ==> Locate(longer, key) == Locate(q, key)
  {
    LocateInPrefix(longer, key, |q|);
    assert longer[..|q|] == q;
  }

  /** The same keys, at whatever readings. */
  ghost predicate SameKeys(uses: seq<Use>, others: seq<Use>) {
    |uses| == |others| && forall i :: 0 <= i < |uses| ==> uses[i].key == others[i].key
  }

  lemma {:induction false} RecencyOfKeys(png: string -> Png, uses: seq<Use>, others: seq<Use>)
    requires SameKeys(uses, others)
    ensures Recency(png, uses) == Recency(png, others)
  {
    if uses != [] { RecencyOfKeys(png, uses[..|uses| - 1], others[..|uses| - 1]); }
  }

  /**
   LRU inclusion: whatever expires and whatever the readings, in one cache and in the other, a
   cache with a larger budget holds everything a smaller one holds, in the same order.
   */
  lemma LargerBudgetHoldsMore(small: Limits, large: Limits, png: string -> Png, uses: seq<Use>, others: seq<Use>)
    requires EachFits(small, png, uses) && small.maxBytes <= large.maxBytes && SameKeys(uses, others)
    ensures Bare(Accesses(small, png, uses)) <= Bare(Accesses(large, png, others))
  {
    CacheIsRecencyPrefix(small, png, uses);
    CacheIsRecencyPrefix(large, png, others);
    RecencyOfKeys(png, uses, others);
    FitGrows(Recency(png, uses), small.maxBytes, large.maxBytes);
  }

  // ---- When larger budgets hit whenever smaller ones do ------------------------------------

  /** After the same uses, every lookup the smaller cache answers is answered by the larger one, with the same picture. */
  ghost predicate HitsToo(small: Limits, large: Limits, png: string -> Png, uses: seq<Use>, key: string, now: int) {
    var hit := GetSpec(small, Accesses(small, png, uses), key, now).1;
    hit.Some? ==> GetSpec(large, Accesses(large, png, uses), key, now).1 == hit
  }

  lemma HeldIsHit(small: Limits, large: Limits, png: string -> Png, uses: seq<Use>, key: string, now: int)
    requires EachFits(small, png, uses) && small.maxBytes <= large.maxBytes && large.ttl <= 0
    ensures HitsToo(small, large, png, uses, key, now)
  {
    hide Accesses, Locate;
    var q, q' := Accesses(small, png, uses), Accesses(large, png, uses);
    LargerBudgetHoldsMore(small, large, png, uses, uses);
    BareLocate(q, key);
    BareLocate(q', key);
    LongerLocates(Bare(q), Bare(q'), key);
    var i := Locate(q, key);
    if i < |q| { assert Bare(q)[i] == Bare(q')[i]; }
  }

  /** Pictures of one byte for the key "a" and of `size` bytes for all others. */
  function Sized(size: nat): string -> Png {
    key => if key == "a" then [0] else seq(size, _ => 0)
  }

  /** A first use stores the picture alone. */
  lemma FirstUse(c: Limits, png: string -> Png, u: Use)
    requires Accepted(c, png(u.key))
    ensures Access(c, [], png, u) == [Item(u.key, png(u.key), if c.ttl > 0 then u.store + c.ttl else 0)]
  {
    OneTotal(Item(u.key, png(u.key), if c.ttl > 0 then u.store + c.ttl else 0));
  }

  lemma TwoTotal(x: Item, y: Item)
    ensures Total([x, y]) == |x.value| + |y.value|
  {
    assert [x, y] == [x] + [y];
    TotalAppend([x], [y]);
    OneTotal(x);
    OneTotal(y);
  }

  lemma FitPair(x: Item, y: Item, budget: nat)
    requires |x.value| <= budget
    ensures Fit([x, y], budget) == if |x.value| + |y.value| <= budget then [x, y] else [x]
  {
    TwoTotal(x, y);
    OneTotal(x);
    assert [x, y][..1] == [x];
  }

  /** Another key is stored in front, and the first stays only if both fit. */
  lemma SecondUse(c: Limits, png: string -> Png, x: Item, u: Use)
    requires Accepted(c, png(u.key)) && x.key != u.key
    ensures var y := Item(u.key, png(u.key), if c.ttl > 0 then u.store + c.ttl else 0);
            Access(c, [x], png, u) == if |y.value| + |x.value| <= c.maxBytes then [y, x] else [y]
  {
    var y := Item(u.key, png(u.key), if c.ttl > 0 then u.store + c.ttl else 0);
    assert Locate([x], u.key) == 1;
    assert Without([x], u.key) == [x];
    MissStores(c, [x], png, u);
    assert Stored(c, [x], u.key, png(u.key), u.store) == [y] + [x] == [y, x];
    FitPair(y, x, c.maxBytes);
  }

  /** One budget for both pictures and one for a single picture: the single cache stores "a" anew, the other keeps its old stamp. */
  lemma LargerHasExpired(small: Limits, large: Limits)
    requires 1 <= small.maxBytes < large.maxBytes && small.ttl == large.ttl && large.ttl > 0
    ensures var ttl := large.ttl;
            !HitsToo(small, large, Sized(small.maxBytes), [Use("a", 0, 0), Use("b", 0, 0), Use("a", ttl, ttl)], "a", ttl + 1)
  {
    hide Access;
    var ttl, png := large.ttl, Sized(small.maxBytes);
    var a, b, again := Use("a", 0, 0), Use("b", 0, 0), Use("a", ttl, ttl);
    assert "a"[0] != "b"[0];
    assert [a, b, again] == (([] + [a]) + [b]) + [again];
    forall c | c == small || c == large
      ensures Accesses(c, png, [a, b, again]) == Access(c, Access(c, Access(c, [], png, a), png, b), png, again)
    {
      AccessesSnoc(c, png, [], a);
      AccessesSnoc(c, png, [] + [a], b);
      AccessesSnoc(c, png, ([] + [a]) + [b], again);
    }
    var x, y, z := Item("a", png("a"), ttl), Item("b", png("b"), ttl), Item("a", png("a"), 2 * ttl);
    FirstUse(small, png, a);
    SecondUse(small, png, x, b);
    SecondUse(small, png, y, again);
    FirstUse(large, png, a);
    SecondUse(large, png, x, b);
    SecondHit(large, png, y, x, again);
    assert Accesses(small, png, [a, b, again]) == [z];
    assert Accesses(large, png, [a, b, again]) == [x, y];
    SingleHit(small, z, ttl + 1);
    FrontExpired(large, x, [y], ttl + 1);
  }

  lemma SecondHit(c: Limits, png: string -> Png, y: Item, x: Item, u: Use)
    requires c.maxBytes > 0 && x.key == u.key != y.key && u.lookup <= x.expires
    ensures Access(c, [y, x], png, u) == [x, y]
  {
    assert Locate([y, x], u.key) == 1 by { LocateUnique([y, x], 1); }
    assert [x] + RemoveAt([y, x], 1) == [x, y];
  }

  lemma SingleHit(c: Limits, x: Item, now: int)
    requires c.maxBytes > 0 && (c.ttl > 0 ==> now <= x.expires)
    ensures GetSpec(c, [x], x.key, now) == ([x], Some(x.value))
  {
    LocateUnique([x], 0);
    assert Without([x], x.key) == [];
    assert [x] + [] == [x];
  }

  lemma FrontExpired(c: Limits, x: Item, rest: seq<Item>, now: int)
    requires c.ttl > 0 && now > x.expires
    ensures GetSpec(c, [x] + rest, x.key, now).1 == None
  {}

  /** With different times to live one key is enough: used at 0, and again when the larger budget's entry is about to expire. */
  lemma OtherTtlExpires(small: Limits, large: Limits)
    requires 1 <= small.maxBytes <= large.maxBytes && large.ttl > 0 && small.ttl != large.ttl
    ensures !HitsToo(small, large, Sized(1), [Use("a", 0, 0), Use("a", large.ttl, large.ttl)], "a", large.ttl + 1)
  {
    hide Access;
    var ttl, png := large.ttl, Sized(1);
    var a, again := Use("a", 0, 0), Use("a", ttl, ttl);
    assert [a, again] == ([] + [a]) + [again];
    forall c | c == small || c == large ensures Accesses(c, png, [a, again]) == Access(c, Access(c, [], png, a), png, again) {
      AccessesSnoc(c, png, [], a);
      AccessesSnoc(c, png, [] + [a], again);
    }
    FirstUse(small, png, a);
    FirstUse(large, png, a);
    var x, y := Access(small, [], png, a)[0], Access(large, [], png, a)[0];
    SameUse(small, png, x, again);
    SameUse(large, png, y, again);
    var z := Accesses(small, png, [a, again])[0];
    SingleHit(small, z, ttl + 1);
    FrontExpired(large, y, [], ttl + 1);
  }

  /** The only key used again: found, or stored anew when it has expired. */
  lemma SameUse(c: Limits, png: string -> Png, x: Item, u: Use)
    requires Accepted(c, png(u.key)) && x.key == u.key
    ensures Access(c, [x], png, u) ==
      if c.ttl > 0 && u.lookup > x.expires then [Item(u.key, png(u.key), u.store + c.ttl)] else [x]
  {
    OneTotal(Item(u.key, png(u.key), u.store + c.ttl));
  }

  /**
   A larger budget answers everything a smaller one answers, on all runs, exactly when the
   larger cache never expires anything or the two caches are alike: content inclusion does not
   carry over to hits, as only what was evicted is stored anew with a fresh stamp.
   */
  lemma LargerBudgetHitsTooIff(small: Limits, large: Limits)
    requires 1 <= small.maxBytes <= large.maxBytes
    ensures large.ttl <= 0 || small == large <==>
      forall png: string -> Png, uses, key, now :: EachFits(small, png, uses) ==> HitsToo(small, large, png, uses, key, now)
  {
    hide HitsToo;
    if large.ttl <= 0 {
      forall png: string -> Png, uses, key, now | EachFits(small, png, uses) ensures HitsToo(small, large, png, uses, key, now) {
        HeldIsHit(small, large, png, uses, key, now);
      }
    } else if small == large {
      forall png: string -> Png, uses, key, now ensures HitsToo(small, large, png, uses, key, now) {
        AlikeHits(small, png, uses, key, now);
      }
    } else if small.ttl != large.ttl {
      OtherTtlExpires(small, large);
    } else {
      LargerHasExpired(small, large);
    }
  }

  lemma AlikeHits(c: Limits, png: string -> Png, uses: seq<Use>, key: string, now: int)
    ensures HitsToo(c, c, png, uses, key, now)
  {}
}
