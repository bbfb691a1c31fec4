/** The chained hash table of `symtab.c`, proved to be a plain map from labels to values.
    A bucket chain is a sequence of key/value pairs. */
module Symtab {
  import opened Primes
  import Bits

  datatype Kvp = Kvp(key: string, value: int)

  const SIZE: nat := 53

  /** A `char` is signed where the assembler runs. */
  function CharValue(c: char): int {
    var x := c as int % 256;
    if x < 128 then x else x - 256
  }

  /** djb2 over a 64-bit accumulator. */
  function Djb2(key: string): (h: nat)
    decreases |key|
  {
    if key == "" then 5381
    else (Djb2(key[..|key| - 1]) * 33 + CharValue(key[|key| - 1])) % 0x1_0000_0000_0000_0000
  }

  function Hash(key: string, size: nat): (h: nat)
    requires size > 0
    ensures h < size
  {
    Djb2(key) % size
  }

  /** `hash`: the accumulator loop. */
  method ComputeHash(key: string, size: nat) returns (h: nat)
    requires size > 0
    ensures h == Hash(key, size)
  {
    var acc: nat := 5381;
    var i := 0;
    while i < |key|
      invariant 0 <= i <= |key| && acc == Djb2(key[..i])
    {
      acc := (acc * 33 + CharValue(key[i])) % 0x1_0000_0000_0000_0000;
      assert key[..i + 1][..i] == key[..i];
      i := i + 1;
    }
    assert key[..i] == key;
    h := acc % size;
  }

  /** p is the least prime not below n. */
  ghost predicate NextPrime(n: nat, p: nat) {
    n <= p && IsPrime(p) && forall q :: n <= q < p ==> !IsPrime(q)
  }

  /** 33^k. */
  function Pow33(k: nat): nat { if k == 0 then 1 else 33 * Pow33(k - 1) }

  /** The characters weighed by their distance from the end. */
  function Weigh(key: string): int
    decreases |key|
  {
    if key == "" then 0 else 33 * Weigh(key[..|key| - 1]) + CharValue(key[|key| - 1])
  }

  lemma ModStep(x: int, c: int, m: int)
    requires m > 0
    ensures (x % m * 33 + c) % m == (x * 33 + c) % m
  {
    var q, r := x / m, x % m;
    var q', r' := (r * 33 + c) / m, (r * 33 + c) % m;
    assert x * 33 + c == m * (33 * q + q') + r' by {
      assert x == m * q + r && r * 33 + c == m * q' + r';
      assert m * (33 * q + q') == 33 * (m * q) + m * q';
    }
    Bits.DivModUnique(x * 33 + c, m, 33 * q + q', r');
  }

  /** The hash is the polynomial 5381 * 33^n + c1 * 33^(n-1) + ... + cn, modulo 2^64. */
  lemma {:induction false} Djb2Closed(key: string)
    ensures Djb2(key) == (5381 * Pow33(|key|) + Weigh(key)) % 0x1_0000_0000_0000_0000
    decreases |key|
  {
    if key != "" {
      var p := key[..|key| - 1];
      Djb2Closed(p);
      ModStep(5381 * Pow33(|p|) + Weigh(p), CharValue(key[|key| - 1]), 0x1_0000_0000_0000_0000);
    }
  }

  /** The value at a key, or -1: what `search_sym` answers for a table holding m. */
  function Lookup(m: map<string, int>, key: string): int {
    if key in m then m[key] else -1
  }

  ghost predicate InBucket(b: seq<Kvp>, key: string) {
    exists j :: 0 <= j < |b| && b[j].key == key
  }

  /** A bucket of a table of this size holds distinct keys of its own hash, all in m. */
  ghost predicate BucketOk(b: seq<Kvp>, index: nat, size: nat, m: map<string, int>)
    requires size > 0
  {
    && (forall j :: 0 <= j < |b| ==> Hash(b[j].key, size) == index && b[j].key in m && m[b[j].key] == b[j].value)
    && (forall i, j :: 0 <= i < j < |b| ==> b[i].key != b[j].key)
  }

  /** The buckets hold exactly the pairs of m. */
  ghost predicate Holds(t: seq<seq<Kvp>>, m: map<string, int>)
  {
    && |t| > 0
    && (forall i :: 0 <= i < |t| ==> BucketOk(t[i], i, |t|, m))
    && (forall k :: k in m ==> InBucket(t[Hash(k, |t|)], k))
  }

  lemma HoldsAfterAppend(t: seq<seq<Kvp>>, m: map<string, int>, key: string, value: int)
    requires Holds(t, m) && key !in m
    ensures var h := Hash(key, |t|);
            Holds(t[h := t[h] + [Kvp(key, value)]], m[key := value])
  {
    var h := Hash(key, |t|);
    var b := t[h] + [Kvp(key, value)];
    var t', m' := t[h := b], m[key := value];
    forall i | 0 <= i < |t'|
      ensures BucketOk(t'[i], i, |t'|, m')
    {
      assert BucketOk(t[i], i, |t|, m);
    }
    forall k | k in m'
      ensures InBucket(t'[Hash(k, |t'|)], k)
    {
      if k == key {
        assert b[|t[h]|].key == k;
      } else {
        assert InBucket(t[Hash(k, |t|)], k);
        var j :| 0 <= j < |t[Hash(k, |t|)]| && t[Hash(k, |t|)][j].key == k;
        assert t'[Hash(k, |t|)][j].key == k;
      }
    }
  }

  lemma BucketAfterRemove(b: seq<Kvp>, index: nat, size: nat, m: map<string, int>, j: nat)
    requires size > 0 && BucketOk(b, index, size, m) && j < |b|
    ensures BucketOk(b[..j] + b[j + 1..], index, size, m - {b[j].key})
  {
    hide Hash;
    var c := b[..j] + b[j + 1..];
    forall p | 0 <= p < |c| ensures c[p] == b[if p < j then p else p + 1] {}
  }

  lemma HoldsAfterRemove(t: seq<seq<Kvp>>, m: map<string, int>, key: string, j: nat)
    requires Holds(t, m) && j < |t[Hash(key, |t|)]| && t[Hash(key, |t|)][j].key == key
    ensures var h := Hash(key, |t|);
            key in m && Holds(t[h := t[h][..j] + t[h][j + 1..]], m - {key})
  {
    hide Hash;
    var h := Hash(key, |t|);
    assert BucketOk(t[h], h, |t|, m);
    BucketAfterRemove(t[h], h, |t|, m, j);
    var b := t[h][..j] + t[h][j + 1..];
    var t', m' := t[h := b], m - {key};
    forall i | 0 <= i < |t'|
      ensures BucketOk(t'[i], i, |t'|, m')
    {
      assert BucketOk(t[i], i, |t|, m);
    }
    forall k | k in m'
      ensures InBucket(t'[Hash(k, |t'|)], k)
    {
      var c := t[Hash(k, |t|)];
      assert InBucket(c, k);
      var p :| 0 <= p < |c| && c[p].key == k;
      var p' := if Hash(k, |t|) == h && p > j then p - 1 else p;
      assert t'[Hash(k, |t'|)][p'].key == k;
    }
  }

  lemma AbsentFromBucket(t: seq<seq<Kvp>>, m: map<string, int>, key: string, b: seq<Kvp>)
    requires Holds(t, m) && b == t[Hash(key, |t|)] && forall j :: 0 <= j < |b| ==> b[j].key != key
    ensures key !in m
  {
    assert key in m ==> InBucket(b, key);
  }

  lemma FoundInBucket(t: seq<seq<Kvp>>, m: map<string, int>, key: string, j: nat, b: seq<Kvp>)
    requires Holds(t, m) && b == t[Hash(key, |t|)] && j < |b| && b[j].key == key
    ensures key in m && m[key] == b[j].value
  {
    assert BucketOk(b, Hash(key, |t|), |t|, m);
  }

  // ------------------------------------------------- rehashing

  /** The pairs of a chain as a map. */
  ghost function ChainMap(b: seq<Kvp>): map<string, int> {
    if b == [] then map[] else ChainMap(b[..|b| - 1])[b[|b| - 1].key := b[|b| - 1].value]
  }

  /** The part of m whose keys hash below index i. */
  ghost function Below(m: map<string, int>, size: nat, i: nat): map<string, int>
    requires size > 0
  {
    map k | k in m && Hash(k, size) < i :: m[k]
  }

  lemma ChainMapNext(b: seq<Kvp>, j: nat)
    requires j < |b|
    ensures ChainMap(b[..j + 1]) == ChainMap(b[..j])[b[j].key := b[j].value]
  {
    assert b[..j + 1][..j] == b[..j];
  }

  lemma EmptyChain(b: seq<Kvp>, m: map<string, int>)
    ensures m + ChainMap(b[..0]) == m
  {}

  lemma {:induction false} ChainMapKeys(b: seq<Kvp>)
    ensures forall k :: k in ChainMap(b) <==> InBucket(b, k)
  {
    if b != [] {
      var c := b[..|b| - 1];
      ChainMapKeys(c);
      forall k ensures k in ChainMap(b) <==> InBucket(b, k) {
        if InBucket(c, k) {
          var j :| 0 <= j < |c| && c[j].key == k;
          assert b[j].key == k;
        }
        if k == b[|b| - 1].key { assert InBucket(b, k); }
        if InBucket(b, k) && k != b[|b| - 1].key {
          var j :| 0 <= j < |b| && b[j].key == k;
          assert c[j].key == k;
        }
      }
    }
  }

  lemma {:induction false} ChainMapValues(b: seq<Kvp>, m: map<string, int>)
    requires forall j :: 0 <= j < |b| ==> b[j].key in m && m[b[j].key] == b[j].value
    ensures forall k :: k in ChainMap(b) ==> k in m && ChainMap(b)[k] == m[k]
  {
    if b != [] {
      var c := b[..|b| - 1];
      forall j | 0 <= j < |c| ensures c[j].key in m && m[c[j].key] == c[j].value { assert c[j] == b[j]; }
      ChainMapValues(c, m);
    }
  }

  /** Moving bucket i adds exactly the keys that hash to i. */
  lemma BelowNext(t: seq<seq<Kvp>>, m: map<string, int>, i: nat)
    requires Holds(t, m) && i < |t|
    ensures Below(m, |t|, i) + ChainMap(t[i]) == Below(m, |t|, i + 1)
  {
    var b := t[i];
    assert BucketOk(b, i, |t|, m);
    ChainMapKeys(b);
    ChainMapValues(b, m);
    forall k ensures k in ChainMap(b) <==> k in m && Hash(k, |t|) == i {
      if k in m && Hash(k, |t|) == i { assert InBucket(t[Hash(k, |t|)], k); }
    }
  }

  /** While a chain is moved, its next key is still to come, so the new table is smaller. */
  lemma NextIsNew(t: seq<seq<Kvp>>, m: map<string, int>, i: nat, j: nat)
    requires Holds(t, m) && i < |t| && j < |t[i]|
    ensures var done := Below(m, |t|, i) + ChainMap(t[i][..j]);
            t[i][j].key !in done && |done| < |m|
  {
    var b := t[i];
    var c := b[..j];
    assert BucketOk(b, i, |t|, m);
    ChainMapKeys(c);
    ChainMapValues(c, m);
    var done := Below(m, |t|, i) + ChainMap(c);
    assert b[j].key !in ChainMap(c);
    FewerKeys(done, m, b[j].key);
  }

  lemma FewerKeys(m: map<string, int>, all: map<string, int>, key: string)
    requires forall k :: k in m ==> k in all
    requires key in all && key !in m
    ensures |m| < |all|
  {
    var rest := all.Keys - m.Keys;
    assert all.Keys == m.Keys + rest && key in rest;
  }

  lemma EmptyHolds(t: seq<seq<Kvp>>)
    requires |t| > 0 && forall i :: 0 <= i < |t| ==> t[i] == []
    ensures Holds(t, map[])
  {}

  class Table {
    var table: array<seq<Kvp>>
    var count: nat
    var size: nat
    ghost var M: map<string, int>

    /** The table is its map M, and is at most half full, rounded up: a rehash, which puts
        the same keys in a table twice as large, can never trigger another. */
    ghost predicate Valid()
      reads this, table
    {
      && size == table.Length && size >= 2
      && Holds(table[..], M)
      && count == |M|
      && 2 * count <= size + 1
    }

    /** `create_symtab`. */
    constructor ()
      ensures Valid() && fresh(table) && M == map[] && size == SIZE
    {
      table := new seq<Kvp>[SIZE](_ => []);
      count := 0;
      size := SIZE;
      M := map[];
      new;
      EmptyHolds(table[..]);
    }

    /** The walk along one chain that insertion, search and removal share. */
    static method Walk(b: seq<Kvp>, key: string) returns (j: nat)
      ensures j <= |b| && forall i :: 0 <= i < j ==> b[i].key != key
      ensures j < |b| ==> b[j].key == key
    {
      j := 0;
      while j < |b| && b[j].key != key
        invariant 0 <= j <= |b|
        invariant forall i :: 0 <= i < j ==> b[i].key != key
      {
        j := j + 1;
      }
    }

    /** `insert_sym`. */
    method Insert(key: string, value: int) returns (ok: bool)
      requires Valid()
      modifies this, table
      ensures Valid() && (table == old(table) || fresh(table))
      ensures ok <==> key !in old(M)
      ensures M == if ok then old(M)[key := value] else old(M)
      ensures if old(2 * count < size) then size == old(size) && table == old(table) else NextPrime(2 * old(size), size)
      decreases if 2 * count >= size then 2 else 0, 0
    {
      hide Holds, Hash, IsPrime;
      if 2 * count >= size {
        Resize();
      }
      ok := InsertWithRoom(key, value);
    }

    /** The part of `insert_sym` after the load test. */
    method InsertWithRoom(key: string, value: int) returns (ok: bool)
      requires Valid() && 2 * count < size
      modifies this`count, this`M, table
      ensures Valid()
      ensures ok <==> key !in old(M)
      ensures M == if ok then old(M)[key := value] else old(M)
    {
      hide Holds, Hash;
      var index := ComputeHash(key, size);
      ghost var t := table[..];
      var b := table[index];
      var j := Walk(b, key);
      if j < |b| {
        FoundInBucket(t, M, key, j, b);
        return false;
      }
      AbsentFromBucket(t, M, key, b);
      HoldsAfterAppend(t, M, key, value);
      table[index] := b + [Kvp(key, value)];
      assert table[..] == t[index := t[index] + [Kvp(key, value)]];
      assert M[key := value].Keys == M.Keys + {key};
      count := count + 1;
      M := M[key := value];
      return true;
    }

    /** `resize_symtab`: rehash every pair into the next prime above twice the size. */
    method Resize()
      requires Valid() && 2 * count >= size
      modifies this
      ensures Valid() && fresh(table)
      ensures M == old(M) && NextPrime(2 * old(size), size) && 2 * count < size
      decreases 1, 1
    {
      hide Holds, Hash;
      var oldTable, oldSize := table, size;
      ghost var all := M;
      ghost var t := table[..];
      var newSize := FindNextPrime(oldSize * 2);
      size := newSize;
      count := 0;
      table := new seq<Kvp>[newSize](_ => []);
      M := map[];
      EmptyHolds(table[..]);
      var i := 0;
      assert M == Below(all, oldSize, 0);
      while i < oldSize
        invariant 0 <= i <= oldSize == oldTable.Length
        invariant Valid() && fresh(table) && size == newSize && 2 * |all| < size
        invariant oldTable[..] == t && oldTable != table && Holds(t, all)
        invariant M == Below(all, oldSize, i)
      {
        assert oldTable[i] == t[i];
        MoveChain(oldTable[i], t, all, i);
        BelowNext(t, all, i);
        i := i + 1;
      }
      BelowAll(all, oldSize);
    }

    /** The inner loop of `resize_symtab`: reinsert the pairs of one old chain. */
    method MoveChain(b: seq<Kvp>, ghost t: seq<seq<Kvp>>, ghost all: map<string, int>, ghost i: nat)
      requires Valid() && Holds(t, all) && i < |t| && b == t[i]
      requires M == Below(all, |t|, i) && 2 * |all| < size
      modifies this, table
      ensures Valid() && table == old(table) && size == old(size)
      ensures M == Below(all, |t|, i) + ChainMap(b)
      decreases 1, 0
    {
      hide Holds, Hash, Below, ChainMap;
      var j := 0;
      EmptyChain(b, Below(all, |t|, i));
      while j < |b|
        invariant 0 <= j <= |b| && Valid() && table == old(table) && size == old(size)
        invariant M == Below(all, |t|, i) + ChainMap(b[..j])
      {
        NextIsNew(t, all, i, j);
        ChainMapNext(b, j);
        var ok := Insert(b[j].key, b[j].value);
        j := j + 1;
      }
      assert b[..j] == b;
    }

    /** `search_sym`. */
    method Search(key: string) returns (value: int)
      requires Valid()
      ensures value == Lookup(M, key)
    {
      hide Holds, Hash;
      var index := ComputeHash(key, size);
      var b := table[index];
      var j := Walk(b, key);
      if j < |b| {
        FoundInBucket(table[..], M, key, j, b);
        return b[j].value;
      }
      AbsentFromBucket(table[..], M, key, b);
      return -1;
    }

    /** `remove_sym`. */
    method Remove(key: string) returns (ok: bool)
      requires Valid()
      modifies this, table
      ensures Valid() && table == old(table)
      ensures ok <==> key in old(M)
      ensures M == old(M) - {key}
    {
      hide Holds, Hash;
      var index := ComputeHash(key, size);
      ghost var t := table[..];
      var b := table[index];
      var j := Walk(b, key);
      if j == |b| {
        AbsentFromBucket(t, M, key, b);
        assert M - {key} == M;
        return false;
      }
      HoldsAfterRemove(t, M, key, j);
      table[index] := b[..j] + b[j + 1..];
      assert table[..] == t[index := t[index][..j] + t[index][j + 1..]];
      assert M.Keys == (M - {key}).Keys + {key};
      count := count - 1;
      M := M - {key};
      return true;
    }

    /** `remove_all_sym`. */
    method RemoveAll()
      requires Valid()
      modifies this, table
      ensures Valid() && table == old(table) && M == map[]
    {
      hide Holds;
      var i := 0;
      while i < size
        invariant 0 <= i <= size && size == table.Length >= 2 && table == old(table)
        invariant forall p :: 0 <= p < i ==> table[p] == []
      {
        table[i] := [];
        i := i + 1;
      }
      count := 0;
      M := map[];
      EmptyHolds(table[..]);
    }
  }

  lemma BelowAll(m: map<string, int>, size: nat)
    requires size > 0
    ensures Below(m, size, size) == m
  {}

  // ------------------------------------------------- any sequence of operations

  datatype Request = Put(key: string, value: int) | Find(key: string) | Drop(key: string) | Clear

  /** What a plain map does with one request: a duplicate insertion is refused and keeps the
      first value. */
  function Answer(m: map<string, int>, r: Request): (map<string, int>, int) {
    match r
    case Put(k, v) => if k in m then (m, 0) else (m[k := v], 1)
    case Find(k) => (m, Lookup(m, k))
    case Drop(k) => if k in m then (m - {k}, 1) else (m, 0)
    case Clear => (map[], 1)
  }

  /** All requests in order: the final map and the answers. */
  function Answers(m: map<string, int>, rs: seq<Request>): (map<string, int>, seq<int>) {
    if rs == [] then (m, [])
    else
      var (m', answers) := Answers(m, rs[..|rs| - 1]);
      var (m'', answer) := Answer(m', rs[|rs| - 1]);
      (m'', answers + [answer])
  }

  method Serve(t: Table, r: Request) returns (answer: int)
    requires t.Valid()
    modifies t, t.table
    ensures t.Valid() && (t.table == old(t.table) || fresh(t.table)) && (t.M, answer) == Answer(old(t.M), r)
  {
    hide Table.Valid;
    match r
    case Put(k, v) =>
      var ok := t.Insert(k, v);
      answer := if ok then 1 else 0;
    case Find(k) =>
      answer := t.Search(k);
    case Drop(k) =>
      var ok := t.Remove(k);
      assert k !in old(t.M) ==> old(t.M) - {k} == old(t.M);
      answer := if ok then 1 else 0;
    case Clear =>
      t.RemoveAll();
      answer := 1;
  }

  /** Over any sequence of insertions, searches, removals and clears, with resizes wherever
      they fall, the table answers as a plain map and ends holding the same pairs. */
  method Replay(t: Table, rs: seq<Request>) returns (answers: seq<int>)
    requires t.Valid()
    modifies t, t.table
    ensures t.Valid() && (t.table == old(t.table) || fresh(t.table)) && (t.M, answers) == Answers(old(t.M), rs)
    ensures t.count == |t.M|
  {
    hide Table.Valid;
    answers := [];
    var i := 0;
    while i < |rs|
      invariant 0 <= i <= |rs| && t.Valid() && (t.table == old(t.table) || fresh(t.table))
      invariant (t.M, answers) == Answers(old(t.M), rs[..i])
    {
      var answer := Serve(t, rs[i]);
      assert rs[..i + 1][..i] == rs[..i];
      answers := answers + [answer];
      i := i + 1;
    }
    assert rs[..i] == rs;
    CountsKeys(t);
  }

  lemma CountsKeys(t: Table)
    requires t.Valid()
    ensures t.count == |t.M|
  {}
}
