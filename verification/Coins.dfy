/** The unspent-output cache stack: write-back caches with DIRTY and FRESH flags
    over a coin database (src/coins.h, src/coins.cpp).

    `View` is the value of a whole stack, `Utxo` the plain map of unspent coins
    that it stands for. Every cache operation is a function on `View`; the classes
    at the end update their fields in place and are proved against it.

    Map comprehensions give absent keys one fixed value (the `GetOr` in them): Dafny 4.11
    lets equal maps agree on absent keys as well, which would be inconsistent otherwise. */
module Coins {
  import opened Options

  datatype OutPoint = OutPoint(hash: nat, n: nat)

  datatype Coin = Coin(nValue: int, script: seq<bv8>, nHeight: nat, fCoinBase: bool, fCoinStake: bool) {
    predicate IsSpent() { nValue == -1 }

    /** OP_RETURN outputs and oversized scripts never enter the set. */
    predicate IsUnspendable() { (|script| > 0 && script[0] == 0x6a) || |script| > 10000 }
  }

  const NULL_COIN := Coin(-1, [], 0, false, false)

  datatype Entry = Entry(coin: Coin, isDirty: bool, isFresh: bool)

  const NO_ENTRY := Entry(NULL_COIN, false, false)

  type Entries = map<OutPoint, Entry>

  /** A stack of views, topmost first. Hash 0 is the null hash. */
  datatype View =
    | Store(coins: map<OutPoint, Coin>, best: nat)
    | Cache(entries: Entries, hash: nat, base: View)

  // ---------------------------------------------------------------- meaning

  function Unspent(coins: map<OutPoint, Coin>): (m: map<OutPoint, Coin>) {
    coins - (set o | o in coins && coins[o].IsSpent())
  }

  function ShownAt(es: Entries, parent: map<OutPoint, Coin>, o: OutPoint): Option<Coin> {
    if o in es then if es[o].coin.IsSpent() then None else Some(es[o].coin)
    else if o in parent then Some(parent[o]) else None
  }

  /** One cache over a plain map: its entries win, spent ones hide. */
  function Overlay(es: Entries, parent: map<OutPoint, Coin>): map<OutPoint, Coin> {
    map o | o in es.Keys + parent.Keys && ShownAt(es, parent, o).Some? :: ShownAt(es, parent, o).GetOr(NULL_COIN)
  }

  /** The plain map of unspent coins that a view stands for. */
  function Utxo(v: View): map<OutPoint, Coin> {
    match v
    case Store(coins, _) => Unspent(coins)
    case Cache(es, _, base) => Overlay(es, Utxo(base))
  }

  /** The plain maps of all layers, topmost first. */
  function Views(v: View): (s: seq<map<OutPoint, Coin>>)
    ensures |s| == Depth(v) + 1
  {
    if v.Store? then [Utxo(v)] else [Utxo(v)] + Views(v.base)
  }

  function Depth(v: View): nat {
    if v.Store? then 0 else 1 + Depth(v.base)
  }

  /** FRESH: the parent view has no unspent coin. Not DIRTY: the entry agrees with the parent view. */
  predicate Sound(e: Entry, o: OutPoint, parent: map<OutPoint, Coin>) {
    && (e.isFresh ==> o !in parent)
    && (!e.isDirty ==> if e.coin.IsSpent() then o !in parent else o in parent && parent[o] == e.coin)
  }

  predicate Coherent(es: Entries, parent: map<OutPoint, Coin>) {
    forall o :: o in es ==> Sound(es[o], o, parent)
  }

  predicate Inv(v: View) {
    v.Cache? ==> Inv(v.base) && Coherent(v.entries, Utxo(v.base))
  }

  // ---------------------------------------------------------------- operations

  function Lookup(v: View, o: OutPoint): Option<Coin> {
    match v
    case Store(coins, _) => if o in coins then Some(coins[o]) else None
    case Cache(es, _, _) => if o in es then Some(es[o].coin) else None
  }

  /** FetchCoin: pull an entry through every layer below, without making it dirty. */
  function Fetched(v: View, o: OutPoint): (r: View)
    ensures v.Store? ==> r == v
    ensures v.Cache? ==> r.Cache? && r.hash == v.hash
  {
    if v.Store? || o in v.entries then v
    else
      var base := Fetched(v.base, o);
      match Lookup(base, o)
      case None => v.(base := base)
      case Some(c) => Cache(v.entries[o := Entry(c, false, c.IsSpent())], v.hash, base)
  }

  /** AddCoin; None is the "replaces non-pruned entry" exception. */
  function Added(v: View, o: OutPoint, coin: Coin, overwrite: bool): Option<View>
    requires v.Cache?
  {
    if coin.IsUnspendable() then Some(v)
    else
      var e := if o in v.entries then v.entries[o] else NO_ENTRY;
      if !overwrite && !e.coin.IsSpent() then None
      else Some(v.(entries := v.entries[o := Entry(coin, true, e.isFresh || (!overwrite && !e.isDirty))]))
  }

  function Spent(v: View, o: OutPoint): (r: View)
    requires v.Cache?
  {
    var v := Fetched(v, o);
    if o !in v.entries then v
    else if v.entries[o].isFresh then v.(entries := v.entries - {o})
    else v.(entries := v.entries[o := Entry(NULL_COIN, true, false)])
  }

  function Uncached(v: View, o: OutPoint): (r: View)
    requires v.Cache?
  {
    if o in v.entries && !v.entries[o].isDirty && !v.entries[o].isFresh
    then v.(entries := v.entries - {o}) else v
  }

  /** A child entry whose FRESH flag the parent's own entry contradicts. */
  predicate Misapplied(us: Entries, child: Entries, o: OutPoint) {
    o in child && child[o].isDirty && child[o].isFresh && o in us && !us[o].coin.IsSpent()
  }

  predicate NoneMisapplied(us: Entries, child: Entries) {
    forall o | o in child :: !Misapplied(us, child, o)
  }

  /** What one child entry does to the parent's entry for the same outpoint. */
  function MergeOne(us: Option<Entry>, child: Entry): Option<Entry> {
    if !child.isDirty then us
    else match us
      case None =>
        if child.isFresh && child.coin.IsSpent() then None else Some(Entry(child.coin, true, child.isFresh))
      case Some(e) =>
        if e.isFresh && child.coin.IsSpent() then None else Some(Entry(child.coin, true, e.isFresh))
  }

  function Get(es: Entries, o: OutPoint): Option<Entry> {
    if o in es then Some(es[o]) else None
  }

  function MergeAt(us: Entries, child: Entries, o: OutPoint): Option<Entry> {
    if o in child then MergeOne(Get(us, o), child[o]) else Get(us, o)
  }

  function Merge(us: Entries, child: Entries): Entries {
    map o | o in us.Keys + child.Keys && MergeAt(us, child, o).Some? :: MergeAt(us, child, o).GetOr(NO_ENTRY)
  }

  function StoreAt(coins: map<OutPoint, Coin>, child: Entries, o: OutPoint): Option<Coin> {
    if o in child && child[o].isDirty then if child[o].coin.IsSpent() then None else Some(child[o].coin)
    else if o in coins then Some(coins[o]) else None
  }

  function MergeStore(coins: map<OutPoint, Coin>, child: Entries): map<OutPoint, Coin> {
    map o | o in coins.Keys + child.Keys && StoreAt(coins, child, o).Some? :: StoreAt(coins, child, o).GetOr(NULL_COIN)
  }

  /** BatchWrite; None is the "FRESH flag misapplied" exception. */
  function Written(v: View, child: Entries, hash: nat): Option<View> {
    match v
    case Store(coins, best) => Some(Store(MergeStore(coins, child), if hash != 0 then hash else best))
    case Cache(us, _, base) =>
      if NoneMisapplied(us, child) then Some(Cache(Merge(us, child), hash, base)) else None
  }

  function Flushed(v: View): Option<View>
    requires v.Cache?
  {
    match Written(v.base, v.entries, v.hash)
    case None => None
    case Some(base) => Some(Cache(map[], v.hash, base))
  }

  /** GetBestBlock as a value, and the view after the hash has been cached on the way. */
  function BestOf(v: View): nat {
    match v
    case Store(_, best) => best
    case Cache(_, hash, base) => if hash != 0 then hash else BestOf(base)
  }

  function CacheBest(v: View): (r: View)
    ensures v.Cache? <==> r.Cache?
  {
    if v.Store? || v.hash != 0 then v
    else Cache(v.entries, BestOf(v.base), CacheBest(v.base))
  }

  // ---------------------------------------------------------------- one layer

  lemma OverlayUpdate(es: Entries, parent: map<OutPoint, Coin>, o: OutPoint, e: Entry)
    ensures var m := Overlay(es, parent);
            Overlay(es[o := e], parent) == if e.coin.IsSpent() then m - {o} else m[o := e.coin]
  {
    forall p ensures p != o ==> ShownAt(es[o := e], parent, p) == ShownAt(es, parent, p) {}
  }

  lemma OverlayRemove(es: Entries, parent: map<OutPoint, Coin>, o: OutPoint)
    ensures var m := Overlay(es, parent);
            Overlay(es - {o}, parent) == if o in parent then m[o := parent[o]] else m - {o}
  {
  }

  lemma CoherentUpdate(es: Entries, parent: map<OutPoint, Coin>, o: OutPoint, e: Entry)
    requires Coherent(es, parent)
    ensures Coherent(es[o := e], parent) <==> Sound(e, o, parent)
    ensures Coherent(es - {o}, parent)
  {
    assert es[o := e][o] == e;
    var d := es - {o};
    assert forall p :: p in d ==> p in es && d[p] == es[p];
  }

  lemma WithoutStep(es: Entries, todo: set<OutPoint>, o: OutPoint)
    requires o in es && o in todo
    ensures es - (todo - {o}) == (es - todo)[o := es[o]] && o !in es - todo
  {
  }

  lemma MisappliedStep(us: Entries, part: Entries, o: OutPoint, child: Entry)
    requires NoneMisapplied(us, part) && !Misapplied(us, part[o := child], o)
    ensures NoneMisapplied(us, part[o := child])
  {
    forall p ensures p != o ==> Misapplied(us, part[o := child], p) == Misapplied(us, part, p) {}
  }

  /** Merging one more child entry changes that outpoint only. */
  lemma MergeStep(us: Entries, part: Entries, o: OutPoint, child: Entry)
    requires o !in part
    ensures Get(Merge(us, part), o) == Get(us, o)
    ensures Merge(us, part[o := child]) ==
            match MergeOne(Get(us, o), child)
            case None => Merge(us, part) - {o}
            case Some(e) => Merge(us, part)[o := e]
  {
    hide MergeOne;
    forall p ensures p != o ==> MergeAt(us, part[o := child], p) == MergeAt(us, part, p) {}
  }

  lemma StoreAtStep(coins: map<OutPoint, Coin>, part: Entries, o: OutPoint, child: Entry, p: OutPoint)
    requires o !in part
    ensures StoreAt(coins, part[o := child], p) ==
              if p != o || !child.isDirty then StoreAt(coins, part, p)
              else if child.coin.IsSpent() then None else Some(child.coin)
    ensures StoreAt(coins, part, p).Some? ==> p in coins.Keys + part.Keys
    ensures StoreAt(coins, part[o := child], p).Some? ==> p in coins.Keys + part[o := child].Keys
  {
  }

  lemma MergeStoreStep(coins: map<OutPoint, Coin>, part: Entries, o: OutPoint, child: Entry)
    requires o !in part
    ensures MergeStore(coins, part[o := child]) ==
            if !child.isDirty then MergeStore(coins, part)
            else if child.coin.IsSpent() then MergeStore(coins, part) - {o}
            else MergeStore(coins, part)[o := child.coin]
  {
    hide StoreAt;
    var a, b := MergeStore(coins, part[o := child]), MergeStore(coins, part);
    forall p ensures (p in a <==> StoreAt(coins, part[o := child], p).Some?) && (p in b <==> StoreAt(coins, part, p).Some?)
      && StoreAt(coins, part[o := child], p) == (if p != o || !child.isDirty then StoreAt(coins, part, p)
                                                  else if child.coin.IsSpent() then None else Some(child.coin))
    {
      StoreAtStep(coins, part, o, child, p);
    }
  }

  // ---------------------------------------------------------------- one step keeps the meaning

  lemma {:induction false} FetchKeeps(v: View, o: OutPoint)
    requires Inv(v)
    ensures Inv(Fetched(v, o)) && Utxo(Fetched(v, o)) == Utxo(v)
    ensures var c := Lookup(Fetched(v, o), o);
            if c.Some? && !c.value.IsSpent() then o in Utxo(v) && Utxo(v)[o] == c.value else o !in Utxo(v)
  {
    if v.Cache? && o !in v.entries {
      FetchKeeps(v.base, o);
      var c, parent := Lookup(Fetched(v.base, o), o), Utxo(v.base);
      assert Utxo(v) == Overlay(v.entries, parent);
      if c.Some? {
        var e := Entry(c.value, false, c.value.IsSpent());
        CoherentUpdate(v.entries, parent, o, e);
        OverlayUpdate(v.entries, parent, o, e);
      }
    }
  }

  /** An add without overwrite neither throws nor breaks a FRESH flag exactly when the view has no unspent coin there. */
  lemma AddExact(v: View, o: OutPoint, coin: Coin)
    requires v.Cache? && Inv(v) && !coin.IsSpent() && !coin.IsUnspendable()
    ensures (Added(v, o, coin, false).Some? && Inv(Added(v, o, coin, false).value)) <==> o !in Utxo(v)
  {
    var r := Added(v, o, coin, false);
    if r.Some? {
      CoherentUpdate(v.entries, Utxo(v.base), o, r.value.entries[o]);
      if o in v.entries { assert Sound(v.entries[o], o, Utxo(v.base)); }
    }
  }

  lemma AddKeeps(v: View, o: OutPoint, coin: Coin, overwrite: bool)
    requires v.Cache? && Inv(v) && coin.nValue != -1
    requires overwrite || coin.IsUnspendable() || o !in Utxo(v)
    ensures var r := Added(v, o, coin, overwrite);
            r.Some? && Inv(r.value) && r.value.Cache? && r.value.base == v.base
            && Utxo(r.value) == if coin.IsUnspendable() then Utxo(v) else Utxo(v)[o := coin]
  {
    if !coin.IsUnspendable() {
      if !overwrite { AddExact(v, o, coin); }
      var e := Added(v, o, coin, overwrite).value.entries[o];
      if o in v.entries { assert Sound(v.entries[o], o, Utxo(v.base)); }
      CoherentUpdate(v.entries, Utxo(v.base), o, e);
      OverlayUpdate(v.entries, Utxo(v.base), o, e);
    }
  }

  /** A layer without an entry there gets one, unless the output starts with OP_RETURN or its script is too long. */
  lemma AddStores(v: View, o: OutPoint, coin: Coin)
    requires v.Cache? && o !in v.entries
    ensures var r := Added(v, o, coin, false);
            && r.Some? && r.value.Cache?
            && (o in r.value.entries <==> |coin.script| <= 10000 && (coin.script == [] || coin.script[0] != 0x6a))
            && (o in r.value.entries ==> r.value.entries[o] == Entry(coin, true, true))
  {
  }

  lemma SpendKeeps(v: View, o: OutPoint)
    requires v.Cache? && Inv(v)
    ensures Inv(Spent(v, o)) && Utxo(Spent(v, o)) == Utxo(v) - {o}
  {
    FetchKeeps(v, o);
    var w := Fetched(v, o);
    if o in w.entries {
      assert Sound(w.entries[o], o, Utxo(w.base));
      CoherentUpdate(w.entries, Utxo(w.base), o, Entry(NULL_COIN, true, false));
      OverlayUpdate(w.entries, Utxo(w.base), o, Entry(NULL_COIN, true, false));
      OverlayRemove(w.entries, Utxo(w.base), o);
    }
  }

  lemma UncacheKeeps(v: View, o: OutPoint)
    requires v.Cache? && Inv(v)
    ensures Inv(Uncached(v, o)) && Utxo(Uncached(v, o)) == Utxo(v)
  {
    if Uncached(v, o) != v {
      assert Sound(v.entries[o], o, Utxo(v.base));
      CoherentUpdate(v.entries, Utxo(v.base), o, v.entries[o]);
      OverlayRemove(v.entries, Utxo(v.base), o);
    }
  }

  /** Uncaching undoes what fetching an unspent coin did to the layer, and leaves an entry alone that the layers below
      do not have: a changed or a FRESH one. */
  lemma UncacheUndoesFetch(v: View, o: OutPoint)
    requires v.Cache? && Inv(v)
    ensures o !in v.entries && o in Utxo(v) ==> Uncached(Fetched(v, o), o) == v.(base := Fetched(v.base, o))
    ensures o in v.entries && (v.entries[o].isDirty || v.entries[o].isFresh) ==> Uncached(v, o) == v
  {
    if o !in v.entries && o in Utxo(v) {
      FetchKeeps(v, o);
      FetchKeeps(v.base, o);
      var f := Fetched(v, o);
      assert o in f.entries && f.entries == v.entries[o := f.entries[o]];
      PutAndDrop(v.entries, o, f.entries[o]);
    }
  }

  /** A coin that was added where the layer had no entry, and then spent, leaves no trace in it. */
  lemma SpendUndoesAdd(v: View, o: OutPoint, coin: Coin)
    requires v.Cache? && o !in v.entries && !coin.IsSpent() && !coin.IsUnspendable()
    ensures Added(v, o, coin, false).Some? && Spent(Added(v, o, coin, false).value, o) == v
  {
    PutAndDrop(v.entries, o, Entry(coin, true, true));
  }

  lemma PutAndDrop(es: Entries, o: OutPoint, e: Entry)
    requires o !in es
    ensures es[o := e] - {o} == es
  {
  }

  /** Nor, when it was flushed in between, does it leave one in the layer below, if that had none. */
  lemma SpendUndoesFlushedAdd(v: View, o: OutPoint, coin: Coin)
    requires v.Cache? && v.base.Cache? && v.entries == map[] && o !in v.base.entries && Inv(v)
    requires !coin.IsSpent() && !coin.IsUnspendable()
    ensures var added := Added(v, o, coin, false);
            added.Some? && Flushed(added.value).Some? &&
            var again := Flushed(Spent(Flushed(added.value).value, o));
            again.Some? && again.value.entries == map[] && again.value.base.Cache? && again.value.base.entries == v.base.entries
  {
    var es := v.base.entries;
    var one, none := map[o := Entry(coin, true, true)], map[o := Entry(NULL_COIN, true, false)];
    var a := Added(v, o, coin, false).value;
    assert a.entries == one;
    MergeOnly(es, o, one[o]);
    var mid := es[o := one[o]];
    var b := Flushed(a).value;
    assert b == Cache(map[], v.hash, Cache(mid, v.hash, v.base.base));
    assert Fetched(b.base, o) == b.base;
    assert Fetched(b, o) == Cache(map[o := Entry(coin, false, false)], v.hash, b.base);
    var c := Spent(b, o);
    assert c.entries == map[o := Entry(coin, false, false)][o := none[o]] == none;
    MergeOnly(mid, o, none[o]);
    assert mid - {o} == es;
  }

  /** Merging a child that has one entry only. */
  lemma MergeOnly(us: Entries, o: OutPoint, child: Entry)
    ensures Merge(us, map[o := child]) ==
            match MergeOne(Get(us, o), child)
            case None => us - {o}
            case Some(e) => us[o := e]
  {
    hide MergeOne;
    var part: Entries := map[];
    assert Merge(us, part) == us;
    MergeStep(us, part, o, child);
  }

  /** A batch write to a cache throws just when a changed and FRESH child entry meets an unspent one. */
  lemma WriteThrowsIff(v: View, child: Entries, hash: nat)
    requires v.Cache?
    ensures Written(v, child, hash) == None <==>
            exists o :: o in child && child[o].isDirty && child[o].isFresh && o in v.entries && v.entries[o].coin.nValue != -1
  {
    hide Merge;
    if Written(v, child, hash) == None {
      var o :| o in child && Misapplied(v.entries, child, o);
      assert o in child && child[o].isDirty && child[o].isFresh && o in v.entries && v.entries[o].coin.nValue != -1;
    }
    forall o | o in child && child[o].isDirty && child[o].isFresh && o in v.entries && v.entries[o].coin.nValue != -1
      ensures Misapplied(v.entries, child, o)
    {
    }
  }

  lemma FreshNeverMisapplied(v: View)
    requires v.Cache? && v.base.Cache? && Inv(v)
    ensures NoneMisapplied(v.base.entries, v.entries)
  {
    forall o ensures !Misapplied(v.base.entries, v.entries, o) {
      assert o in v.entries ==> Sound(v.entries[o], o, Utxo(v.base));
      assert o in v.base.entries && !v.base.entries[o].coin.IsSpent() ==> o in Utxo(v.base);
    }
  }

  /** Flush never throws, leaves the view as it was and makes the parent's view equal to it. */
  lemma FlushKeeps(v: View)
    requires v.Cache? && Inv(v)
    ensures Flushed(v).Some?
    ensures var r := Flushed(v).value;
            r.Cache? && Inv(r) && r.entries == map[] && Utxo(r) == Utxo(v) && Utxo(r.base) == Utxo(v)
            && (v.base.Cache? ==> r.base.Cache? && r.base.base == v.base.base)
  {
    if v.base.Cache? {
      FreshNeverMisapplied(v);
      MergeCoherent(v);
    }
    MergeMeaning(v);
  }

  lemma MergeCoherent(v: View)
    requires v.Cache? && v.base.Cache? && Inv(v)
    ensures Coherent(Merge(v.base.entries, v.entries), Utxo(v.base.base))
  {
    var us, grand := v.base.entries, Utxo(v.base.base);
    forall o | o in Merge(us, v.entries) ensures Sound(Merge(us, v.entries)[o], o, grand) {
      if o in v.entries { assert Sound(v.entries[o], o, Utxo(v.base)); }
      if o in us { assert Sound(us[o], o, grand); }
    }
  }

  lemma MergeMeaning(v: View)
    requires v.Cache? && Inv(v)
    ensures Written(v.base, v.entries, v.hash).Some? ==>
              Utxo(Written(v.base, v.entries, v.hash).value) == Utxo(v)
  {
    hide Overlay, Merge, MergeStore, Unspent;
    var r := Written(v.base, v.entries, v.hash);
    if r.Some? {
      if v.base.Store? {
        StoreMeaning(v.base.coins, v.entries);
      } else {
        CacheMeaning(v.base.entries, v.entries, Utxo(v.base.base));
      }
    }
  }

  lemma ShownIs(es: Entries, parent: map<OutPoint, Coin>, o: OutPoint)
    ensures o in Overlay(es, parent) <==> ShownAt(es, parent, o).Some?
    ensures o in Overlay(es, parent) ==> Some(Overlay(es, parent)[o]) == ShownAt(es, parent, o)
  {
  }

  /** Two plain maps that show the same everywhere are equal. */
  lemma SameMaps(a: map<OutPoint, Coin>, b: map<OutPoint, Coin>)
    requires forall o :: (o in a <==> o in b) && (o in a ==> a[o] == b[o])
    ensures a == b
  {
  }

  lemma StoreMeaning(coins: map<OutPoint, Coin>, es: Entries)
    requires Coherent(es, Unspent(coins))
    ensures Unspent(MergeStore(coins, es)) == Overlay(es, Unspent(coins))
  {
    hide Overlay;
    var a, b := Unspent(MergeStore(coins, es)), Overlay(es, Unspent(coins));
    forall o ensures (o in a <==> o in b) && (o in a ==> a[o] == b[o]) {
      ShownIs(es, Unspent(coins), o);
      if o in es { assert Sound(es[o], o, Unspent(coins)); }
    }
    SameMaps(a, b);
  }

  lemma CacheMeaning(us: Entries, es: Entries, grand: map<OutPoint, Coin>)
    requires Coherent(us, grand) && Coherent(es, Overlay(us, grand))
    ensures Overlay(Merge(us, es), grand) == Overlay(es, Overlay(us, grand))
  {
    hide Overlay;
    var a, b := Overlay(Merge(us, es), grand), Overlay(es, Overlay(us, grand));
    forall o ensures (o in a <==> o in b) && (o in a ==> a[o] == b[o]) {
      ShownIs(Merge(us, es), grand, o);
      ShownIs(us, grand, o);
      ShownIs(es, Overlay(us, grand), o);
      if o in es { assert Sound(es[o], o, Overlay(us, grand)); }
      if o in us { assert Sound(us[o], o, grand); }
    }
    SameMaps(a, b);
  }

  /** The cache without its entries. */
  function Emptied(v: View): View
    requires v.Cache?
  {
    v.(entries := map[])
  }

  lemma EmptyOverlay(parent: map<OutPoint, Coin>)
    ensures Overlay(map[], parent) == parent
  {
  }

  /** After a flush that the database fails to commit the cache stands for what the database holds: its own changes are
      lost. */
  lemma FailedFlushLoses(v: View)
    requires v.Cache? && Inv(v)
    ensures Inv(Emptied(v)) && Utxo(Emptied(v)) == Utxo(v.base)
  {
    hide Overlay;
    EmptyOverlay(Utxo(v.base));
  }

  // ---------------------------------------------------------------- best block

  lemma {:induction false} CacheBestKeeps(v: View)
    requires Inv(v)
    ensures BestOf(CacheBest(v)) == BestOf(v) && Views(CacheBest(v)) == Views(v) && Inv(CacheBest(v))
    ensures Utxo(CacheBest(v)) == Utxo(v) && (v.Cache? ==> CacheBest(v).hash == BestOf(v))
  {
    if v.Cache? && v.hash == 0 { CacheBestKeeps(v.base); }
  }

  /** Flush pushes its hash even when it is null, so the best block survives exactly
      when this layer has one, or the parent is the database, or the parent's hash is
      null or no news to its own parent. */
  lemma FlushBest(v: View)
    requires v.Cache? && Inv(v)
    ensures Flushed(v).Some?
    ensures BestOf(Flushed(v).value) == BestOf(v) <==>
              v.hash != 0 || v.base.Store? || v.base.hash == 0 || v.base.hash == BestOf(v.base.base)
    ensures v.hash != 0 ==> BestOf(Flushed(v).value.base) == BestOf(v)
  {
    FlushKeeps(v);
  }

  /** A three-layer stack on which Flush loses the best block. */
  lemma FlushLosesBestBlock()
    ensures var v := Cache(map[], 0, Cache(map[], 7, Store(map[], 3)));
            Inv(v) && BestOf(v) == 7 && Flushed(v).Some? && BestOf(Flushed(v).value) == 3
  {
    var v := Cache(map[], 0, Cache(map[], 7, Store(map[], 3)));
    FlushKeeps(v);
  }

  // ---------------------------------------------------------------- runs over a stack of any height

  /** Layer 0 is the top. Coins are added and spent at the top only; fetching, uncaching,
      flushing and reading the best block happen at any cache layer. Push puts a new empty cache on
      the stack and Drop discards the top one with everything it had not flushed. */
  datatype Op =
    | OpFetch(layer: nat, o: OutPoint)
    | OpUncache(layer: nat, o: OutPoint)
    | OpFlush(layer: nat)
    | OpReadBest(layer: nat)
    | OpAdd(o: OutPoint, coin: Coin, overwrite: bool)
    | OpSpend(o: OutPoint)
    | OpSetBest(hash: nat)
    | OpPush
    | OpDrop

  function AtLayer(v: View, k: nat, op: Op): Option<View>
    requires k < Depth(v)
  {
    if k > 0 then
      match AtLayer(v.base, k - 1, op)
      case None => None
      case Some(base) => Some(v.(base := base))
    else match op
      case OpFetch(_, o) => Some(Fetched(v, o))
      case OpUncache(_, o) => Some(Uncached(v, o))
      case OpFlush(_) => Flushed(v)
      case _ => Some(CacheBest(v))
  }

  predicate Layered(op: Op) { op.OpFetch? || op.OpUncache? || op.OpFlush? || op.OpReadBest? }

  /** What the callers of the cache must respect. */
  predicate Legal(v: View, op: Op) {
    match op
    case OpAdd(o, coin, overwrite) =>
      v.Cache? && !coin.IsSpent() && (overwrite || coin.IsUnspendable() || o !in Utxo(v))
    case OpSpend(_) => v.Cache?
    case OpSetBest(_) => v.Cache?
    case OpPush => true
    case OpDrop => v.Cache?
    case _ => op.layer < Depth(v)
  }

  function Step(v: View, op: Op): Option<View>
    requires Legal(v, op)
  {
    match op
    case OpAdd(o, coin, overwrite) => Added(v, o, coin, overwrite)
    case OpSpend(o) => Some(Spent(v, o))
    case OpSetBest(hash) => Some(v.(hash := hash))
    case OpPush => Some(Cache(map[], 0, v))
    case OpDrop => Some(v.base)
    case _ => AtLayer(v, op.layer, op)
  }

  /** Setting the best block sets it for this layer and no other, and no coin changes. */
  lemma SetBestIs(v: View, hash: nat)
    requires v.Cache? && hash != 0
    ensures var r := Step(v, OpSetBest(hash));
            r.Some? && r.value.Cache? && BestOf(r.value) == hash && r.value.base == v.base && r.value.entries == v.entries
  {
  }

  /** The same operation on plain maps, one per layer: a flush copies a map one layer down. */
  function PlainStep(s: seq<map<OutPoint, Coin>>, op: Op): seq<map<OutPoint, Coin>>
    requires |s| > 0
    requires op.OpFlush? ==> op.layer + 1 < |s|
  {
    match op
    case OpAdd(o, coin, _) => if coin.IsUnspendable() then s else s[0 := s[0][o := coin]]
    case OpSpend(o) => s[0 := s[0] - {o}]
    case OpFlush(k) => s[k + 1 := s[k]]
    case OpPush => [s[0]] + s
    case OpDrop => s[1..]
    case _ => s
  }

  /** What an operation at layer `k` may do: every layer stays sound and stands for what it did, but for a flush. */
  predicate LayerDone(v: View, r: View, k: nat, op: Op)
    requires k < Depth(v)
  {
    && Inv(r) && r.Cache? && Utxo(r) == Utxo(v)
    && Views(r) == if op.OpFlush? then Views(v)[k + 1 := Views(v)[k]] else Views(v)
  }

  lemma FetchLayer(v: View, op: Op)
    requires v.Cache? && Inv(v) && op.OpFetch?
    ensures LayerDone(v, Fetched(v, op.o), 0, op)
  {
    hide Inv, Utxo, Views;
    FetchKeeps(v, op.o);
    FetchViews(v, op.o);
  }

  lemma UncacheLayer(v: View, op: Op)
    requires v.Cache? && Inv(v) && op.OpUncache?
    ensures LayerDone(v, Uncached(v, op.o), 0, op)
  {
    hide Overlay, Inv;
    UncacheKeeps(v, op.o);
  }

  lemma FlushLayer(v: View, op: Op)
    requires v.Cache? && Inv(v) && op.OpFlush?
    ensures Flushed(v).Some? && LayerDone(v, Flushed(v).value, 0, op)
  {
    hide Inv, Utxo, Views, Flushed;
    FlushKeeps(v);
    var r := Flushed(v).value;
    ViewsTwo(v);
    ViewsTwo(r);
    if v.base.Store? { FlushedStore(v); }
    var below := if v.base.Store? then [] else Views(v.base.base);
    assert Views(v) == [Utxo(v), Utxo(v.base)] + below && Views(r) == [Utxo(r), Utxo(r.base)] + below;
    assert Views(v)[1 := Views(v)[0]] == [Utxo(v), Utxo(v)] + below;
  }

  lemma ViewsTwo(v: View)
    requires v.Cache?
    ensures Views(v) == [Utxo(v), Utxo(v.base)] + if v.base.Store? then [] else Views(v.base.base)
  {
    hide Utxo;
    assert Views(v) == [Utxo(v)] + Views(v.base);
    if v.base.Store? { assert Views(v.base) == [Utxo(v.base)]; } else { assert Views(v.base) == [Utxo(v.base)] + Views(v.base.base); }
  }

  lemma FlushedStore(v: View)
    requires v.Cache? && v.base.Store?
    ensures Flushed(v).Some? && Flushed(v).value.base.Store?
  {
  }

  lemma BestLayer(v: View, op: Op)
    requires v.Cache? && Inv(v) && op.OpReadBest?
    ensures LayerDone(v, CacheBest(v), 0, op)
  {
    hide Overlay, Inv, Utxo, Views;
    CacheBestKeeps(v);
  }

  lemma UnderLayer(v: View, base: View, k: nat, op: Op)
    requires v.Cache? && Inv(v) && k < Depth(v.base) && LayerDone(v.base, base, k, op)
    ensures LayerDone(v, v.(base := base), k + 1, op)
  {
    hide Overlay, Coherent;
  }

  lemma {:induction false} LayerKeeps(v: View, k: nat, op: Op)
    requires Inv(v) && k < Depth(v) && Layered(op)
    ensures AtLayer(v, k, op).Some? && LayerDone(v, AtLayer(v, k, op).value, k, op)
  {
    hide LayerDone, Fetched, Uncached, Flushed, CacheBest;
    if k > 0 {
      InvBelow(v);
      LayerKeeps(v.base, k - 1, op);
      var base := AtLayer(v.base, k - 1, op).value;
      UnderLayer(v, base, k - 1, op);
      assert AtLayer(v, k, op) == Some(v.(base := base));
    } else {
      match op
      case OpFetch(_, _) => FetchLayer(v, op);
      case OpUncache(_, _) => UncacheLayer(v, op);
      case OpFlush(_) => FlushLayer(v, op);
      case OpReadBest(_) => BestLayer(v, op);
    }
  }

  lemma InvBelow(v: View)
    requires v.Cache? && Inv(v)
    ensures Inv(v.base)
  {
  }

  lemma {:induction false} FetchViews(v: View, o: OutPoint)
    requires Inv(v)
    ensures Views(Fetched(v, o)) == Views(v)
  {
    FetchKeeps(v, o);
    if v.Cache? && o !in v.entries { FetchViews(v.base, o); }
  }

  lemma SpendViews(v: View, o: OutPoint)
    requires v.Cache? && Inv(v)
    ensures Views(Spent(v, o)) == Views(v)[0 := Utxo(v) - {o}]
  {
    hide Overlay, Inv;
    SpendKeeps(v, o);
    FetchViews(v, o);
    assert Views(Fetched(v, o))[1..] == Views(v)[1..];
    assert Spent(v, o).base == Fetched(v, o).base;
  }

  lemma AddViews(v: View, o: OutPoint, coin: Coin, overwrite: bool)
    requires v.Cache? && Inv(v) && !coin.IsSpent() && (overwrite || coin.IsUnspendable() || o !in Utxo(v))
    ensures Added(v, o, coin, overwrite).Some?
    ensures Views(Added(v, o, coin, overwrite).value) ==
              if coin.IsUnspendable() then Views(v) else Views(v)[0 := Utxo(v)[o := coin]]
  {
    hide Overlay, Inv;
    AddKeeps(v, o, coin, overwrite);
  }

  lemma HashKeeps(v: View, hash: nat)
    requires v.Cache? && Inv(v)
    ensures Inv(v.(hash := hash)) && Views(v.(hash := hash)) == Views(v)
  {
    hide Overlay, Coherent;
  }

  lemma PushKeeps(v: View)
    requires Inv(v)
    ensures Inv(Cache(map[], 0, v)) && Views(Cache(map[], 0, v)) == [Utxo(v)] + Views(v)
  {
    hide Overlay;
    EmptyOverlay(Utxo(v));
  }

  lemma ViewsTop(v: View)
    ensures Views(v)[0] == Utxo(v) && (v.Cache? ==> Views(v)[1..] == Views(v.base))
  {
    hide Overlay;
  }

  lemma StepKeeps(v: View, op: Op)
    requires Inv(v) && Legal(v, op)
    ensures Step(v, op).Some?
    ensures Inv(Step(v, op).value) && Views(Step(v, op).value) == PlainStep(Views(v), op)
  {
    hide Inv, Utxo, Views, Added, Spent, AtLayer;
    ViewsTop(v);
    match op
    case OpAdd(o, coin, overwrite) => AddKeeps(v, o, coin, overwrite); AddViews(v, o, coin, overwrite);
    case OpSpend(o) => SpendKeeps(v, o); SpendViews(v, o);
    case OpSetBest(hash) => HashKeeps(v, hash);
    case OpPush => PushKeeps(v);
    case OpDrop => InvBelow(v);
    case _ => LayerKeeps(v, op.layer, op);
  }

  /** Every operation of the run is legal in the state it meets. */
  predicate LegalRun(v: View, ops: seq<Op>)
    decreases |ops|
  {
    ops == [] ||
    (Legal(v, ops[0]) && (Step(v, ops[0]).Some? ==> LegalRun(Step(v, ops[0]).value, ops[1..])))
  }

  /** The stack after a run; None when an operation threw. */
  function Exec(v: View, ops: seq<Op>): Option<View>
    requires LegalRun(v, ops)
    decreases |ops|
  {
    if ops == [] then Some(v)
    else match Step(v, ops[0])
      case None => None
      case Some(w) => Exec(w, ops[1..])
  }

  function PlainExec(s: seq<map<OutPoint, Coin>>, ops: seq<Op>): seq<map<OutPoint, Coin>>
    decreases |ops|
  {
    if ops == [] || s == [] || (ops[0].OpFlush? && ops[0].layer + 1 >= |s|) then s
    else PlainExec(PlainStep(s, ops[0]), ops[1..])
  }

  /** No legal run over any stack throws, and it equals the same run over plain maps, layer by layer. */
  lemma {:induction false} RunRefinesPlainMaps(v: View, ops: seq<Op>)
    requires Inv(v) && LegalRun(v, ops)
    ensures Exec(v, ops).Some?
    ensures Inv(Exec(v, ops).value) && Views(Exec(v, ops).value) == PlainExec(Views(v), ops)
    decreases |ops|
  {
    if ops != [] {
      StepKeeps(v, ops[0]);
      RunRefinesPlainMaps(Step(v, ops[0]).value, ops[1..]);
    }
  }

  // ---------------------------------------------------------------- the classes

  datatype Outcome = Done | Threw

  class CoinsViewDB {
    var coins: map<OutPoint, Coin>
    var best: nat

    function Value(): View
      reads this
    {
      Store(coins, best)
    }

    constructor ()
      ensures Value() == Store(map[], 0)
    {
      coins, best := map[], 0;
    }

    /** Collects a batch and commits it as a whole; a commit that fails throws and leaves the database as it was. */
    method BatchWrite(mapCoins: Entries, hashBlock: nat, commits: bool) returns (r: Outcome)
      modifies this
      ensures r.Done? <==> commits
      ensures r.Done? ==> Written(old(Value()), mapCoins, hashBlock) == Some(Value())
      ensures r.Threw? ==> Value() == old(Value())
    {
      var batch := coins;
      var todo := mapCoins.Keys;
      ghost var part: Entries := map[];
      while todo != {}
        invariant todo <= mapCoins.Keys && part == mapCoins - todo
        invariant batch == MergeStore(coins, part) && coins == old(coins) && best == old(best)
        decreases todo
      {
        var o :| o in todo;
        var child := mapCoins[o];
        MergeStoreStep(coins, part, o, child);
        WithoutStep(mapCoins, todo, o);
        part := part[o := child];
        if child.isDirty {
          if child.coin.IsSpent() { batch := batch - {o}; } else { batch := batch[o := child.coin]; }
        }
        todo := todo - {o};
      }
      assert part == mapCoins;
      if !commits { return Threw; }
      coins := batch;
      if hashBlock != 0 { best := hashBlock; }
      return Done;
    }
  }

  /** One cache. Its parent is another cache, or the database when `parent` is null. */
  class CoinsViewCache {
    var cacheCoins: Entries
    var hashBlock: nat
    const parent: CoinsViewCache?
    const db: CoinsViewDB
    ghost const Repr: set<object>

    ghost predicate Valid()
      decreases Repr
    {
      && this in Repr && db in Repr
      && (parent == null ==> Repr == {this, db})
      && (parent != null ==>
            && parent in Repr && Repr == {this} + parent.Repr && this !in parent.Repr
            && parent.db == db && parent.Valid())
    }

    /** The value of the stack from this cache down. */
    ghost function Value(): (v: View)
      requires Valid()
      reads Repr
      ensures v.Cache?
      decreases Repr
    {
      Cache(cacheCoins, hashBlock, if parent == null then db.Value() else parent.Value())
    }

    constructor OverDB(db: CoinsViewDB)
      ensures Valid() && Value() == Cache(map[], 0, db.Value())
    {
      cacheCoins, hashBlock, parent := map[], 0, null;
      this.db := db;
      Repr := {this, db};
    }

    constructor OverCache(parent: CoinsViewCache)
      requires parent.Valid()
      ensures Valid() && Value() == Cache(map[], 0, parent.Value())
    {
      cacheCoins, hashBlock := map[], 0;
      this.parent := parent;
      this.db := parent.db;
      Repr := {this} + parent.Repr;
    }

    method FetchCoin(o: OutPoint) returns (found: bool)
      requires Valid()
      modifies Repr
      ensures Value() == Fetched(old(Value()), o)
      ensures found <==> o in cacheCoins
      decreases Repr, 0
    {
      if o in cacheCoins { return true; }
      var ok, tmp := false, NULL_COIN;
      if parent == null {
        if o in db.coins { ok, tmp := true, db.coins[o]; }
      } else {
        ok, tmp := parent.GetCoin(o);
      }
      if !ok { return false; }
      cacheCoins := cacheCoins[o := Entry(tmp, false, tmp.IsSpent())];
      return true;
    }

    method GetCoin(o: OutPoint) returns (ok: bool, coin: Coin)
      requires Valid()
      modifies Repr
      ensures Value() == Fetched(old(Value()), o)
      ensures Lookup(Value(), o) == if ok then Some(coin) else None
      decreases Repr, 1
    {
      ok := FetchCoin(o);
      coin := if ok then cacheCoins[o].coin else NULL_COIN;
    }

    method HaveCoin(o: OutPoint) returns (have: bool)
      requires Valid()
      modifies Repr
      ensures Value() == Fetched(old(Value()), o)
      ensures old(Inv(Value())) ==> (have <==> o in old(Utxo(Value())))
    {
      ghost var v := Value();
      var found := FetchCoin(o);
      have := found && !cacheCoins[o].coin.IsSpent();
      if Inv(v) { FetchKeeps(v, o); }
    }

    /** AddCoin; a throw leaves the cache as it was. */
    method AddCoin(o: OutPoint, coin: Coin, overwrite: bool) returns (r: Outcome)
      requires Valid() && !coin.IsSpent()
      modifies this
      ensures r.Done? ==> Some(Value()) == Added(old(Value()), o, coin, overwrite)
      ensures r.Threw? ==> Value() == old(Value()) && Added(old(Value()), o, coin, overwrite) == None
    {
      if coin.IsUnspendable() { return Done; }
      var e := NO_ENTRY;
      if o in cacheCoins { e := cacheCoins[o]; }
      var isFresh := false;
      if !overwrite {
        if !e.coin.IsSpent() { return Threw; }
        isFresh := !e.isDirty;
      }
      cacheCoins := cacheCoins[o := Entry(coin, true, e.isFresh || isFresh)];
      return Done;
    }

    method SpendCoin(o: OutPoint) returns (moveout: Coin)
      requires Valid()
      modifies Repr
      ensures Value() == Spent(old(Value()), o)
      ensures old(Inv(Value())) ==>
        if o in old(Utxo(Value())) then moveout == old(Utxo(Value()))[o] else moveout.IsSpent()
    {
      ghost var v := Value();
      var found := FetchCoin(o);
      if Inv(v) { FetchKeeps(v, o); }
      if !found { return NULL_COIN; }
      moveout := cacheCoins[o].coin;
      if cacheCoins[o].isFresh {
        cacheCoins := cacheCoins - {o};
      } else {
        cacheCoins := cacheCoins[o := Entry(NULL_COIN, true, false)];
      }
    }

    method Uncache(o: OutPoint)
      requires Valid()
      modifies this
      ensures Value() == Uncached(old(Value()), o)
    {
      if o in cacheCoins && !cacheCoins[o].isDirty && !cacheCoins[o].isFresh {
        cacheCoins := cacheCoins - {o};
      }
    }

    /** BatchWrite: the entries come in any order; a misapplied FRESH flag stops the loop. */
    method BatchWrite(mapCoins: Entries, hashBlockIn: nat) returns (r: Outcome)
      requires Valid()
      modifies this
      ensures r.Done? ==> Some(Value()) == Written(old(Value()), mapCoins, hashBlockIn)
      ensures r.Threw? ==> Written(old(Value()), mapCoins, hashBlockIn) == None
    {
      var todo := mapCoins.Keys;
      ghost var part: Entries := map[];
      while todo != {}
        invariant todo <= mapCoins.Keys && part == mapCoins - todo
        invariant NoneMisapplied(old(cacheCoins), part)
        invariant cacheCoins == Merge(old(cacheCoins), part)
        invariant hashBlock == old(hashBlock)
        decreases todo
      {
        var o :| o in todo;
        var child := mapCoins[o];
        MergeStep(old(cacheCoins), part, o, child);
        WithoutStep(mapCoins, todo, o);
        assert Get(cacheCoins, o) == Get(old(cacheCoins), o);
        ghost var done := part;
        part := part[o := child];
        if child.isDirty {
          if o !in cacheCoins {
            if !(child.isFresh && child.coin.IsSpent()) {
              cacheCoins := cacheCoins[o := Entry(child.coin, true, child.isFresh)];
            }
          } else {
            if child.isFresh && !cacheCoins[o].coin.IsSpent() {
              assert Misapplied(old(cacheCoins), mapCoins, o);
              return Threw;
            }
            if cacheCoins[o].isFresh && child.coin.IsSpent() {
              cacheCoins := cacheCoins - {o};
            } else {
              cacheCoins := cacheCoins[o := Entry(child.coin, true, cacheCoins[o].isFresh)];
            }
          }
        }
        MisappliedStep(old(cacheCoins), done, o, child);
        todo := todo - {o};
      }
      assert part == mapCoins;
      hashBlock := hashBlockIn;
      return Done;
    }

    /** The entries handed to the parent are erased one by one, so they are gone also when the database fails to commit. */
    method Flush(commits: bool) returns (r: Outcome)
      requires Valid()
      modifies Repr
      ensures r.Done? ==> Some(Value()) == Flushed(old(Value()))
      ensures r.Threw? ==> if parent == null then !commits && Value() == Emptied(old(Value())) else Flushed(old(Value())) == None
      ensures old(Inv(Value())) && (parent != null || commits) ==> r.Done?
    {
      ghost var v := Value();
      if Inv(v) { FlushKeeps(v); }
      if parent == null {
        r := db.BatchWrite(cacheCoins, hashBlock, commits);
        cacheCoins := map[];
      } else {
        r := parent.BatchWrite(cacheCoins, hashBlock);
        if r.Done? { cacheCoins := map[]; }
      }
    }

    method GetBestBlock() returns (hash: nat)
      requires Valid()
      modifies Repr
      ensures Value() == CacheBest(old(Value())) && hash == BestOf(old(Value()))
      decreases Repr
    {
      if hashBlock == 0 {
        if parent == null {
          hashBlock := db.best;
        } else {
          var h := parent.GetBestBlock();
          hashBlock := h;
        }
      }
      return hashBlock;
    }
  }
}
