/** The two-tier cache of `github/cache.py`.

    Recently used items are held in memory, in order of use, over files on disk.
    What is evicted is the shortest prefix of that order after which the rest fits;
    a sweep goes through the oldest files until enough is freed. */
module Cache {
  import opened Options

  type Key = string
  type Data = seq<bv8>

  datatype Item = Item(key: Key, data: Data)

  /** `github_cache_item_bytes` and `github_cache_memory_bytes`. */
  datatype Limits = Limits(item: nat, memory: nat)

  function Size(m: seq<Item>): nat {
    if m == [] then 0 else |m[0].data| + Size(m[1..])
  }

  /** Where the key is, or the length. */
  function Index(m: seq<Item>, key: Key): (i: nat)
    ensures i <= |m| && (i < |m| ==> m[i].key == key) && forall k | 0 <= k < i :: m[k].key != key
  {
    if m == [] || m[0].key == key then 0 else 1 + Index(m[1..], key)
  }

  predicate Has(m: seq<Item>, key: Key) { Index(m, key) < |m| }

  ghost predicate Distinct(m: seq<Item>) { forall i, j | 0 <= i < j < |m| :: m[i].key != m[j].key }

  /** `move_to_end`. */
  function Touch(m: seq<Item>, i: nat): seq<Item>
    requires i < |m|
  {
    m[..i] + m[i + 1..] + [m[i]]
  }

  /** The evictions: oldest first, until the rest fits or is a single item. */
  function Evict(m: seq<Item>, budget: nat): seq<Item> {
    if Size(m) > budget && |m| > 1 then Evict(m[1..], budget) else m
  }

  /** `_remember`. */
  function Remember(c: Limits, m: seq<Item>, key: Key, data: Data): seq<Item> {
    if |data| > c.item then m
    else if Has(m, key) then Touch(m, Index(m, key))
    else Evict(m + [Item(key, data)], c.memory)
  }

  lemma {:induction false} SizeApp(a: seq<Item>, b: seq<Item>)
    ensures Size(a + b) == Size(a) + Size(b)
  {
    if a == [] {
      assert a + b == b;
    } else {
      assert (a + b)[1..] == a[1..] + b;
      SizeApp(a[1..], b);
    }
  }

  lemma SizeTouch(m: seq<Item>, i: nat)
    requires i < |m|
    ensures Size(Touch(m, i)) == Size(m)
  {
    hide Size;
    assert m == m[..i] + [m[i]] + m[i + 1..];
    SizeApp(m[..i] + [m[i]], m[i + 1..]);
    SizeApp(m[..i], [m[i]]);
    SizeApp(m[..i] + m[i + 1..], [m[i]]);
    SizeApp(m[..i], m[i + 1..]);
  }

  /** What is left after the k oldest items fits the budget, or is a single item. */
  ghost predicate Settled(m: seq<Item>, k: nat, budget: nat)
    requires k <= |m|
  {
    Size(m[k..]) <= budget || |m| - k <= 1
  }

  /** Eviction drops exactly the shortest prefix after which the rest fits the
      budget or is a single item. */
  lemma {:induction false} EvictDropsShortestPrefix(m: seq<Item>, budget: nat) returns (k: nat)
    ensures k <= |m| && Evict(m, budget) == m[k..]
    ensures Settled(m, k, budget) && forall j | 0 <= j < k :: !Settled(m, j, budget)
    ensures k == 0 || |m| - k >= 1
  {
    assert m[0..] == m;
    if Size(m) > budget && |m| > 1 {
      var k' := EvictDropsShortestPrefix(m[1..], budget);
      k := k' + 1;
      assert m[1..][k'..] == m[k..];
      forall j | 0 <= j < k ensures !Settled(m, j, budget) {
        if j > 0 {
          assert m[1..][j - 1..] == m[j..];
          assert !Settled(m[1..], j - 1, budget);
        }
      }
    } else {
      k := 0;
    }
  }

  // ---------------------------------------------------------------- the store

  /** Content-addressed: a key stands for one content, whoever stores it. */
  ghost predicate Holds(m: seq<Item>, content: Key -> Data) {
    forall i | 0 <= i < |m| :: m[i].data == content(m[i].key)
  }

  ghost predicate DiskHolds(disk: map<Key, Data>, content: Key -> Data) {
    forall key | key in disk :: disk[key] == content(key)
  }

  ghost predicate Good(c: Limits, m: seq<Item>, content: Key -> Data) {
    && Distinct(m) && Holds(m, content)
    && (c.item <= c.memory ==> Size(m) <= c.memory)
    && (forall i | 0 <= i < |m| :: |m[i].data| <= c.item)
  }

  lemma HasIsIn(m: seq<Item>, key: Key)
    ensures Has(m, key) <==> exists item :: item in m && item.key == key
  {
    if Has(m, key) { assert m[Index(m, key)] in m; }
  }

  /** Where item x of the touched order was before. */
  function Source(i: nat, n: nat, x: nat): nat { if x < i then x else if x + 1 == n then i else x + 1 }

  lemma TouchAt(m: seq<Item>, i: nat, x: nat)
    requires i < |m| && x < |m|
    ensures |Touch(m, i)| == |m| && Source(i, |m|, x) < |m| && Touch(m, i)[x] == m[Source(i, |m|, x)]
  {
  }

  lemma TouchSameItems(m: seq<Item>, i: nat, item: Item)
    requires i < |m|
    ensures item in Touch(m, i) <==> item in m
  {
    assert m == m[..i] + [m[i]] + m[i + 1..];
  }

  lemma TouchIsGood(c: Limits, m: seq<Item>, i: nat, content: Key -> Data)
    requires Good(c, m, content) && i < |m|
    ensures Good(c, Touch(m, i), content)
    ensures forall k :: Has(Touch(m, i), k) <==> Has(m, k)
  {
    hide Size, Index, Touch, Has;
    var t := Touch(m, i);
    SizeTouch(m, i);
    TouchAt(m, i, i);
    forall x | 0 <= x < |t| ensures t[x].data == content(t[x].key) && |t[x].data| <= c.item { TouchAt(m, i, x); }
    forall x, y | 0 <= x < y < |t| ensures t[x].key != t[y].key {
      TouchAt(m, i, x);
      TouchAt(m, i, y);
    }
    forall k ensures Has(t, k) <==> Has(m, k) {
      HasIsIn(m, k);
      HasIsIn(t, k);
      forall item: Item ensures item in t <==> item in m { TouchSameItems(m, i, item); }
    }
  }

  /** Remembering an item keeps the memory within its budget, every content
      right, and loses only what eviction drops. */
  lemma RememberIsGood(c: Limits, m: seq<Item>, key: Key, content: Key -> Data)
    requires Good(c, m, content)
    ensures Good(c, Remember(c, m, key, content(key)), content)
    ensures |content(key)| <= c.item ==> Has(Remember(c, m, key, content(key)), key)
  {
    var data := content(key);
    if |data| <= c.item {
      if Has(m, key) {
        TouchIsGood(c, m, Index(m, key), content);
      } else {
        EvictIsGood(c, m, Item(key, data), content);
      }
    }
  }

  lemma EvictIsGood(c: Limits, m: seq<Item>, item: Item, content: Key -> Data)
    requires Good(c, m, content) && !Has(m, item.key) && item.data == content(item.key) && |item.data| <= c.item
    ensures Good(c, Evict(m + [item], c.memory), content)
    ensures Has(Evict(m + [item], c.memory), item.key)
  {
    hide Evict;
    var all := m + [item];
    var k := EvictDropsShortestPrefix(all, c.memory);
    var r := all[k..];
    assert r[|r| - 1] == item;
    if |r| == 1 { assert r == [item] && Size(r) == |item.data| + Size(r[1..]); }
    forall i, j | 0 <= i < j < |r| ensures r[i].key != r[j].key { assert all[i + k] == r[i] && all[j + k] == r[j]; }
  }

  /** Too large an item changes nothing; one that is there is put last and the others
      stay; a new one is put last, and only as many of the oldest go as have to. */
  lemma RememberIs(c: Limits, m: seq<Item>, key: Key, data: Data) returns (k: nat)
    ensures |data| > c.item ==> Remember(c, m, key, data) == m
    ensures |data| <= c.item && k < |m| ==>
      m[k].key == key && Remember(c, m, key, data) == m[..k] + m[k + 1..] + [m[k]]
    ensures |data| <= c.item && k >= |m| ==>
      var all, drop := m + [Item(key, data)], k - |m|;
      && (forall i | 0 <= i < |m| :: m[i].key != key) && drop < |all|
      && Remember(c, m, key, data) == all[drop..] && (Size(all[drop..]) <= c.memory || drop + 1 == |all|)
      && forall j | 0 <= j < drop :: Size(all[j..]) > c.memory
  {
    hide Size;
    k := Index(m, key);
    if |data| <= c.item && k == |m| {
      var all := m + [Item(key, data)];
      var drop := EvictDropsShortestPrefix(all, c.memory);
      forall j | 0 <= j < drop ensures Size(all[j..]) > c.memory { assert !Settled(all, j, c.memory); }
      k := |m| + drop;
    }
  }

  // ---------------------------------------------------------------- order of use

  /** When the key was used last, counted from 1; 0 when never. */
  function LastUse(uses: seq<Key>, key: Key): (r: nat)
    ensures r <= |uses|
  {
    if uses == [] then 0
    else if uses[|uses| - 1] == key then |uses|
    else LastUse(uses[..|uses| - 1], key)
  }

  /** What is in memory stands in the order of its last use. */
  ghost predicate ByUse(m: seq<Item>, uses: seq<Key>) {
    forall i, j | 0 <= i < j < |m| :: LastUse(uses, m[i].key) < LastUse(uses, m[j].key)
  }

  lemma UsedAgain(uses: seq<Key>, key: Key, other: Key)
    ensures LastUse(uses + [key], other) == if other == key then |uses| + 1 else LastUse(uses, other)
  {
    assert (uses + [key])[..|uses|] == uses;
  }

  /** Using an item puts it last and leaves the others in their order. */
  lemma TouchKeepsOrder(m: seq<Item>, i: nat, uses: seq<Key>)
    requires i < |m| && Distinct(m) && ByUse(m, uses)
    ensures ByUse(Touch(m, i), uses + [m[i].key])
  {
    hide Touch, LastUse;
    var t, key := Touch(m, i), m[i].key;
    TouchAt(m, i, i);
    forall x, y | 0 <= x < y < |t| ensures LastUse(uses + [key], t[x].key) < LastUse(uses + [key], t[y].key) {
      TouchAt(m, i, x);
      TouchAt(m, i, y);
      UsedAgain(uses, key, t[x].key);
      UsedAgain(uses, key, t[y].key);
    }
  }

  /** So memory is kept in the order of use, and what eviction drops, a prefix, was
      used before everything it leaves. */
  lemma RememberKeepsOrder(c: Limits, m: seq<Item>, key: Key, data: Data, uses: seq<Key>)
    requires Distinct(m) && ByUse(m, uses) && |data| <= c.item
    ensures ByUse(Remember(c, m, key, data), uses + [key])
  {
    if Has(m, key) {
      TouchKeepsOrder(m, Index(m, key), uses);
    } else {
      var all := m + [Item(key, data)];
      AddKeepsOrder(m, Item(key, data), uses);
      var k := EvictDropsShortestPrefix(all, c.memory);
      forall i, j | 0 <= i < j < |all[k..]|
        ensures LastUse(uses + [key], all[k..][i].key) < LastUse(uses + [key], all[k..][j].key)
      {
        assert all[k..][i] == all[k + i] && all[k..][j] == all[k + j];
      }
    }
  }

  lemma AddKeepsOrder(m: seq<Item>, item: Item, uses: seq<Key>)
    requires ByUse(m, uses) && !Has(m, item.key)
    ensures ByUse(m + [item], uses + [item.key])
  {
    hide LastUse;
    var all := m + [item];
    forall i, j | 0 <= i < j < |all|
      ensures LastUse(uses + [item.key], all[i].key) < LastUse(uses + [item.key], all[j].key)
    {
      UsedAgain(uses, item.key, all[i].key);
      UsedAgain(uses, item.key, all[j].key);
    }
  }

  class Store {
    const c: Limits
    /** `_memory`, least recently used first. */
    var memory: seq<Item>
    /** `_bytes`. */
    var bytes: nat
    /** The files, when the directory can be written. */
    var disk: Option<map<Key, Data>>

    /** The counter is the sum of the resident sizes. */
    ghost predicate Valid(content: Key -> Data) reads this {
      && bytes == Size(memory) && Good(c, memory, content)
      && (disk.Some? ==> DiskHolds(disk.value, content))
    }

    ghost predicate Cached(key: Key) reads this { Has(memory, key) || (disk.Some? && key in disk.value) }

    constructor (c: Limits, disk: Option<map<Key, Data>>, ghost content: Key -> Data)
      requires disk.Some? ==> DiskHolds(disk.value, content)
      ensures Valid(content) && memory == [] && this.disk == disk && this.c == c
    {
      this.c, memory, bytes, this.disk := c, [], 0, disk;
    }

    /** `_remember`. */
    method RememberItem(key: Key, data: Data, ghost content: Key -> Data)
      requires Valid(content) && data == content(key)
      modifies this`memory, this`bytes
      ensures Valid(content) && memory == Remember(c, old(memory), key, data)
    {
      RememberIsGood(c, memory, key, content);
      if |data| > c.item { return; }
      var i := Index(memory, key);
      if i < |memory| {
        SizeTouch(memory, i);
        memory := Touch(memory, i);
        return;
      }
      SizeApp(memory, [Item(key, data)]);
      memory := memory + [Item(key, data)];
      bytes := bytes + |data|;
      ghost var all := memory;
      while bytes > c.memory && |memory| > 1
        invariant bytes == Size(memory)
        invariant Evict(memory, c.memory) == Evict(all, c.memory)
        decreases |memory|
      {
        bytes := bytes - |memory[0].data|;
        memory := memory[1..];
      }
    }

    /** `get`: the content of the key, or nothing when neither tier holds it. */
    method Get(key: Key, ghost content: Key -> Data) returns (r: Option<Data>)
      requires Valid(content)
      modifies this`memory, this`bytes
      ensures Valid(content)
      ensures r == if old(Cached(key)) then Some(content(key)) else None
      ensures memory == if Has(old(memory), key) then Touch(old(memory), Index(old(memory), key))
                        else if r.Some? then Remember(c, old(memory), key, content(key)) else old(memory)
    {
      var i := Index(memory, key);
      if i < |memory| {
        TouchIsGood(c, memory, i, content);
        SizeTouch(memory, i);
        r := Some(memory[i].data);
        memory := Touch(memory, i);
      } else if disk.None? || key !in disk.value {
        r := None;
      } else {
        r := Some(disk.value[key]);
        RememberItem(key, disk.value[key], content);
      }
    }

    /** `put`; the write may fail, and is then only logged. */
    method Put(key: Key, data: Data, written: bool, ghost content: Key -> Data)
      requires Valid(content) && data == content(key)
      modifies this
      ensures Valid(content) && memory == Remember(c, old(memory), key, data)
      ensures disk == if old(disk).Some? && written then Some(old(disk).value[key := data]) else old(disk)
    {
      RememberItem(key, data, content);
      StoreFile(key, data, written, content);
    }

    /** `store`. */
    method StoreFile(key: Key, data: Data, written: bool, ghost content: Key -> Data)
      requires Valid(content) && data == content(key)
      modifies this`disk
      ensures Valid(content)
      ensures disk == if old(disk).Some? && written then Some(old(disk).value[key := data]) else old(disk)
    {
      if disk.Some? && written { disk := Some(disk.value[key := data]); }
    }

    /** `missing`: the keys worth fetching, each once, in the order of their first mention. */
    method Missing(keys: seq<Key>) returns (r: seq<Key>)
      ensures forall k :: k in r <==> k in keys && k != "" && !Cached(k)
      ensures forall i, j | 0 <= i < j < |r| :: First(keys, r[i]) < First(keys, r[j])
    {
      r := [];
      for i := 0 to |keys|
        invariant forall k :: k in r <==> k in keys[..i] && k != "" && !Cached(k)
        invariant forall x | 0 <= x < |r| :: First(keys, r[x]) < i
        invariant forall x, y | 0 <= x < y < |r| :: First(keys, r[x]) < First(keys, r[y])
      {
        assert keys[..i + 1] == keys[..i] + [keys[i]];
        if keys[i] !in keys[..i] && keys[i] != "" && !Has(memory, keys[i]) && !(disk.Some? && keys[i] in disk.value) {
          FirstHere(keys, i);
          r := r + [keys[i]];
        }
      }
      assert keys[..|keys|] == keys;
    }
  }

  /** The place of the first mention. */
  ghost function First(keys: seq<Key>, k: Key): nat {
    if keys == [] || keys[0] == k then 0 else 1 + First(keys[1..], k)
  }

  lemma {:induction false} FirstHere(keys: seq<Key>, i: nat)
    requires i < |keys| && keys[i] !in keys[..i]
    ensures First(keys, keys[i]) == i
  {
    if i > 0 {
      assert keys[0] in keys[..i];
      assert forall k | k in keys[1..][..i - 1] :: k in keys[..i];
      FirstHere(keys[1..], i - 1);
    }
  }

  // ---------------------------------------------------------------- the sweep

  /** A file as the sweep lists it. */
  datatype File = File(mtime: real, size: nat, path: string)

  function Total(files: seq<File>): nat {
    if files == [] then 0 else Total(files[..|files| - 1]) + files[|files| - 1].size
  }

  /** How much the files may take after a sweep: 80 % of the cap. */
  function Goal(cap: nat): int { (cap as real * 0.8).Floor }

  /** The files a sweep could delete among the first k, given which deletions succeed. */
  function Freed(files: seq<File>, deletable: set<string>, k: nat): nat
    requires k <= |files|
  {
    if k == 0 then 0
    else Freed(files, deletable, k - 1) + if files[k - 1].path in deletable then files[k - 1].size else 0
  }

  /** `_sweep` over the sorted listing; `kept` are the files it leaves. */
  method Sweep(files: seq<File>, cap: nat, deletable: set<string>) returns (freed: nat, total: nat, kept: seq<File>)
    ensures total == Total(files)
    ensures total <= cap ==> freed == 0 && kept == files
    ensures total > cap ==> exists k | 0 <= k <= |files| ::
      && freed == Freed(files, deletable, k)
      && kept == Undeletable(files[..k], deletable) + files[k..]
      && (forall j | 0 <= j < k :: Freed(files, deletable, j) < total - Goal(cap))
      && (k < |files| ==> freed >= total - Goal(cap))
  {
    total := 0;
    for i := 0 to |files|
      invariant total == Total(files[..i])
    {
      assert files[..i + 1][..i] == files[..i];
      total := total + files[i].size;
    }
    assert files[..|files|] == files;
    if total <= cap { return 0, total, files; }
    var target := total - Goal(cap);
    freed, kept := 0, [];
    var k := 0;
    while k < |files| && freed < target
      invariant k <= |files| && freed == Freed(files, deletable, k)
      invariant kept == Undeletable(files[..k], deletable)
      invariant forall j | 0 <= j < k :: Freed(files, deletable, j) < target
    {
      assert files[..k + 1][..k] == files[..k];
      if files[k].path in deletable {
        freed := freed + files[k].size;
      } else {
        kept := kept + [files[k]];
      }
      k := k + 1;
    }
    kept := kept + files[k..];
  }

  function Undeletable(files: seq<File>, deletable: set<string>): seq<File> {
    if files == [] then []
    else
      var last := files[|files| - 1];
      Undeletable(files[..|files| - 1], deletable) + if last.path in deletable then [] else [last]
  }

  /** What a sweep could delete and what it could not are all there is. */
  lemma {:induction false} FreedAndKept(files: seq<File>, deletable: set<string>, k: nat)
    requires k <= |files|
    ensures Freed(files, deletable, k) + Total(Undeletable(files[..k], deletable)) == Total(files[..k])
    ensures forall f :: f in Undeletable(files[..k], deletable) <==> f in files[..k] && f.path !in deletable
  {
    if k > 0 {
      var n := k - 1;
      FreedAndKept(files, deletable, n);
      assert files[..k][..n] == files[..n] && files[..k] == files[..n] + [files[n]];
      TotalApp(Undeletable(files[..n], deletable), if files[n].path in deletable then [] else [files[n]]);
      assert [files[n]][..0] == [];
    }
  }

  /** The goal of a sweep is the largest whole number of bytes that is not above 80 % of the cap. */
  lemma GoalIs(cap: nat)
    ensures 100 * Goal(cap) <= 80 * cap < 100 * (Goal(cap) + 1)
  {
  }

  /** When every deletion succeeds, a sweep deletes the shortest prefix of the
      oldest files that brings the rest down to 80 % of the cap. */
  lemma SweepLeavesEnough(files: seq<File>, cap: nat, deletable: set<string>, k: nat)
    requires (forall f | f in files :: f.path in deletable) && Total(files) > cap && k <= |files|
    requires k < |files| ==> Freed(files, deletable, k) >= Total(files) - Goal(cap)
    ensures Undeletable(files[..k], deletable) == []
    ensures Total(files[k..]) <= Goal(cap) && Goal(cap) <= cap
    ensures Freed(files, deletable, k) == Total(files) - Total(files[k..])
  {
    forall f | f in files[..k] ensures f.path in deletable { assert f in files; }
    AllDeleted(files[..k], deletable);
    FreedAll(files, deletable, k);
    assert files == files[..k] + files[k..];
    TotalApp(files[..k], files[k..]);
    GoalFits(cap);
  }

  lemma GoalFits(cap: nat)
    ensures 0 <= Goal(cap) <= cap
  {
  }

  lemma {:induction false} AllDeleted(files: seq<File>, deletable: set<string>)
    requires forall f | f in files :: f.path in deletable
    ensures Undeletable(files, deletable) == []
  {
    if files != [] {
      assert files[|files| - 1] in files;
      AllDeleted(files[..|files| - 1], deletable);
    }
  }

  lemma {:induction false} FreedAll(files: seq<File>, deletable: set<string>, k: nat)
    requires (forall f | f in files :: f.path in deletable) && k <= |files|
    ensures Freed(files, deletable, k) == Total(files[..k])
  {
    if k > 0 {
      FreedAll(files, deletable, k - 1);
      assert files[..k][..k - 1] == files[..k - 1] && files[k - 1] in files;
    }
  }

  lemma {:induction false} TotalApp(a: seq<File>, b: seq<File>)
    ensures Total(a + b) == Total(a) + Total(b)
  {
    if b == [] {
      assert a + b == a;
    } else {
      assert (a + b)[..|a + b| - 1] == a + b[..|b| - 1];
      TotalApp(a, b[..|b| - 1]);
    }
  }
}
