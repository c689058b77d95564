/** The C++ runtime's object model as far as the core needs it: the tagged
    `Value` union, the dispatched calls the core makes on values (as oracles),
    and the ordered hash table `HashValue` (src/hash_value.cpp), which is one
    of the Value variants and therefore lives in the same module. */
module Objects {
  import opened Wrappers
  import opened Text

  /** A block handle; what running it does is the `run` oracle of Dispatch. */
  datatype BlockRef = BlockRef(id: nat)

  /** What running a block produced: a plain value, or a value carrying the
      break flag (set by `break` inside the block). */
  datatype BlockResult = Normal(value: Value) | Broke(value: Value)

  /** The tagged union of runtime values. Arrays are modelled by their
      contents; a Hash is the mutable table object itself; classes and other
      objects are opaque handles. */
  datatype Value =
    | Array(elems: seq<Value>)
    | Hash(table: HashValue)
    | Integer(number: int)
    | String(chars: string)
    | Symbol(name: string)
    | Nil
    | True
    | False
    | Class(classId: nat)
    | Proc(block: BlockRef)
    | VoidP(address: int)
    | Other(objectId: nat)

  /** `is_truthy`: everything except nil and false. */
  predicate Truthy(v: Value)
  {
    !v.Nil? && !v.False?
  }

  /** The calls the core dispatches to values through `send` and friends.
      Their results are not determined by the core, so they are parameters. */
  datatype Dispatch = Dispatch(
    hash: Value -> int,                  // key->send("hash")->as_integer()->to_int64_t()
    inspect: Value -> string,            // v->send("inspect")->as_string()
    equals: (Value, Value) -> bool,      // a->send("==", b)->is_truthy()
    run: (BlockRef, seq<Value>) -> BlockResult, // block->_run(args)
    respondTo: (Value, string) -> bool,  // obj->respond_to(name)
    send: (Value, string) -> Value,      // obj->send(name) with no arguments
    className: Value -> string,          // NAT_OBJ_CLASS(obj)->class_name()
    ptrIvar: Value -> Value)             // obj->ivar_get("@_ptr")

  // ---------------------------------------------------------------------
  // The abstract content of a hash: its entries in iteration order.
  // ---------------------------------------------------------------------

  /** One live mapping, with the hash code cached when it was inserted. */
  datatype Entry = Entry(key: Value, val: Value, hash: int)

  /** The index keys entries by cached hash alone, so no two live entries share one. */
  ghost predicate DistinctHashes(es: seq<Entry>)
  {
    forall i, j :: 0 <= i < j < |es| ==> es[i].hash != es[j].hash
  }

  /** Where the entry a probe with hash code `h` addresses sits, if any. */
  function Position(es: seq<Entry>, h: int): (r: Option<nat>)
    ensures r.Some? ==> r.value < |es| && es[r.value].hash == h
    ensures r.Some? ==> forall j :: 0 <= j < r.value ==> es[j].hash != h
    ensures r.None? ==> forall j :: 0 <= j < |es| ==> es[j].hash != h
  {
    if es == [] then None
    else if es[0].hash == h then Some(0)
    else match Position(es[1..], h)
      case None => None
      case Some(i) => Some(i + 1)
  }

  /** The stored value a probe with hash code `h` finds. */
  function Lookup(es: seq<Entry>, h: int): (r: Option<Value>)
  {
    match Position(es, h)
    case None => None
    case Some(i) => Some(es[i].val)
  }

  /** `put` on the abstract content: overwrite in place, or append. */
  function PutEntry(es: seq<Entry>, key: Value, val: Value, h: int): (r: seq<Entry>)
  {
    match Position(es, h)
    case Some(i) => es[i := es[i].(val := val)]
    case None => es + [Entry(key, val, h)]
  }

  /** `remove` on the abstract content: drop the addressed entry, keep the rest in order. */
  function RemoveEntry(es: seq<Entry>, h: int): (r: seq<Entry>)
  {
    match Position(es, h)
    case Some(i) => es[..i] + es[i + 1..]
    case None => es
  }

  function KeysOf(es: seq<Entry>): (r: seq<Value>)
    ensures |r| == |es| && forall i :: 0 <= i < |es| ==> r[i] == es[i].key
  {
    seq(|es|, i requires 0 <= i < |es| => es[i].key)
  }

  function ValuesOf(es: seq<Entry>): (r: seq<Value>)
    ensures |r| == |es| && forall i :: 0 <= i < |es| ==> r[i] == es[i].val
  {
    seq(|es|, i requires 0 <= i < |es| => es[i].val)
  }

  /** The set of hash codes in use. */
  function HashesOf(es: seq<Entry>): set<int>
  {
    if es == [] then {} else {es[0].hash} + HashesOf(es[1..])
  }

  lemma {:induction false} InHashesOf(es: seq<Entry>, h: int)
    ensures h in HashesOf(es) <==> Position(es, h).Some?
    decreases |es|
  {
    if es != [] {
      InHashesOf(es[1..], h);
    }
  }

  lemma {:induction false} DistinctHashesCount(es: seq<Entry>)
    requires DistinctHashes(es)
    ensures |HashesOf(es)| == |es|
    decreases |es|
  {
    if es != [] {
      DistinctHashesCount(es[1..]);
      InHashesOf(es[1..], es[0].hash);
    }
  }

  lemma PositionOfDistinct(es: seq<Entry>, i: nat)
    requires DistinctHashes(es) && i < |es|
    ensures Position(es, es[i].hash) == Some(i)
  {
  }

  /** put keeps the index hash codes distinct. */
  lemma PutKeepsDistinct(es: seq<Entry>, key: Value, val: Value, h: int)
    requires DistinctHashes(es)
    ensures DistinctHashes(PutEntry(es, key, val, h))
  {
  }

  /** remove keeps them distinct. */
  lemma RemoveKeepsDistinct(es: seq<Entry>, h: int)
    requires DistinctHashes(es)
    ensures DistinctHashes(RemoveEntry(es, h))
  {
    match Position(es, h)
    case None =>
    case Some(i) =>
      var r := es[..i] + es[i + 1..];
      forall a, b | 0 <= a < b < |r| ensures r[a].hash != r[b].hash {
        var a' := if a < i then a else a + 1;
        var b' := if b < i then b else b + 1;
        assert r[a] == es[a'] && r[b] == es[b'];
      }
  }

  /** After put, the written hash finds the new value; every other hash finds what it found before. */
  lemma LookupAfterPut(es: seq<Entry>, key: Value, val: Value, h: int, probe: int)
    requires DistinctHashes(es)
    ensures Lookup(PutEntry(es, key, val, h), probe) == if probe == h then Some(val) else Lookup(es, probe)
  {
    var r := PutEntry(es, key, val, h);
    PutKeepsDistinct(es, key, val, h);
    match Position(es, h)
    case Some(i) =>
      if probe == h {
        PositionOfDistinct(r, i);
      } else {
        match Position(es, probe)
        case None =>
        case Some(j) => PositionOfDistinct(r, j);
      }
    case None =>
      if probe == h {
        PositionOfDistinct(r, |es|);
      } else {
        match Position(es, probe)
        case None =>
        case Some(j) => PositionOfDistinct(r, j);
      }
  }

  /** After remove, the removed hash finds nothing; every other hash finds what it found before. */
  lemma LookupAfterRemove(es: seq<Entry>, h: int, probe: int)
    requires DistinctHashes(es)
    ensures Lookup(RemoveEntry(es, h), probe) == if probe == h then None else Lookup(es, probe)
  {
    var r := RemoveEntry(es, h);
    RemoveKeepsDistinct(es, h);
    match Position(es, h)
    case None =>
    case Some(i) =>
      if probe != h {
        match Position(es, probe)
        case None =>
          forall j | 0 <= j < |r| ensures r[j].hash != probe {
            assert r[j] == es[if j < i then j else j + 1];
          }
        case Some(j) =>
          var j' := if j < i then j else j - 1;
          assert r[j'] == es[j];
          PositionOfDistinct(r, j');
      } else {
        forall j | 0 <= j < |r| ensures r[j].hash != h {
          assert r[j] == es[if j < i then j else j + 1];
        }
      }
  }

  /** put on a present hash changes neither the order of the keys nor the size. */
  lemma PutPresentKeepsOrder(es: seq<Entry>, key: Value, val: Value, h: int)
    requires Position(es, h).Some?
    ensures |PutEntry(es, key, val, h)| == |es|
    ensures KeysOf(PutEntry(es, key, val, h)) == KeysOf(es)
  {
    var r := PutEntry(es, key, val, h);
    assert KeysOf(r) == KeysOf(es) by {
      assert forall j :: 0 <= j < |es| ==> KeysOf(r)[j] == KeysOf(es)[j];
    }
  }

  /** put on an absent hash makes the new key the last one in iteration order. */
  lemma PutAbsentAppends(es: seq<Entry>, key: Value, val: Value, h: int)
    requires Position(es, h).None?
    ensures |PutEntry(es, key, val, h)| == |es| + 1
    ensures KeysOf(PutEntry(es, key, val, h)) == KeysOf(es) + [key]
  {
    assert KeysOf(PutEntry(es, key, val, h)) == KeysOf(es) + [key] by {
      assert forall j :: 0 <= j <= |es| ==> KeysOf(PutEntry(es, key, val, h))[j] == (KeysOf(es) + [key])[j];
    }
  }

  /** remove shrinks the table by one when the hash is present, and changes nothing otherwise. */
  lemma RemoveSize(es: seq<Entry>, h: int)
    ensures Position(es, h).Some? ==> |RemoveEntry(es, h)| == |es| - 1
    ensures Position(es, h).None? ==> RemoveEntry(es, h) == es
  {
  }

  /** Slots are compared by cached hash code only: two different keys whose
      `hash` results coincide address one entry. A put of the second key
      overwrites the value stored under the first, the first key stays the
      stored key, and the size does not grow. */
  lemma CollidingKeysShareEntry(es: seq<Entry>, k1: Value, k2: Value, v1: Value, v2: Value, d: Dispatch)
    requires DistinctHashes(es)
    requires d.hash(k1) == d.hash(k2)
    ensures var once := PutEntry(es, k1, v1, d.hash(k1));
            var twice := PutEntry(once, k2, v2, d.hash(k2));
            && |twice| == |once|
            && KeysOf(twice) == KeysOf(once)
            && Lookup(twice, d.hash(k1)) == Some(v2)
  {
    var h := d.hash(k1);
    var once := PutEntry(es, k1, v1, h);
    PutKeepsDistinct(es, k1, v1, h);
    LookupAfterPut(es, k1, v1, h, h);
    assert Position(once, h).Some?;
    PutPresentKeepsOrder(once, k2, v2, h);
    LookupAfterPut(once, k2, v2, h, h);
  }

  // ---------------------------------------------------------------------
  // The concrete table: an index keyed by cached hash code plus a circular
  // doubly linked ring of key nodes. Nodes live in an arena (`nodes`) and
  // are referred to by position; a removed node is marked, never freed.
  // ---------------------------------------------------------------------

  /** HashValue::Key: key, value, cached hash, ring links, tombstone flag. */
  datatype KeyNode = KeyNode(key: Value, val: Value, hash: int, prev: Option<nat>, next: Option<nat>, removed: bool)

  /** HashValue::Val: the index's record, pointing at the key node and holding the value. */
  datatype Slot = Slot(node: nat, val: Value)

  /** Nodes agree on everything but their links. */
  ghost predicate SameData(a: KeyNode, b: KeyNode)
  {
    a.key == b.key && a.val == b.val && a.hash == b.hash && a.removed == b.removed
  }

  ghost predicate InArena(ns: seq<KeyNode>, ring: seq<nat>)
  {
    forall k :: 0 <= k < |ring| ==> ring[k] < |ns|
  }

  /** Ring position after k. */
  function NextIdx(k: nat, len: nat): nat
    requires k < len
  {
    if k + 1 == len then 0 else k + 1
  }

  /** Ring position before k. */
  function PrevIdx(k: nat, len: nat): nat
    requires k < len
  {
    if k == 0 then len - 1 else k - 1
  }

  /** The node at ring position k is live and linked to its ring neighbours. */
  ghost predicate LinkedAt(ns: seq<KeyNode>, ring: seq<nat>, k: nat)
    requires InArena(ns, ring) && k < |ring|
  {
    && !ns[ring[k]].removed
    && ns[ring[k]].next == Some(ring[NextIdx(k, |ring|)])
    && ns[ring[k]].prev == Some(ring[PrevIdx(k, |ring|)])
  }

  /** `ring` lists the nodes reachable from `head` along `next`, in order,
      each once; `prev` runs the other way; the last node links back to the head. */
  ghost predicate RingLinked(ns: seq<KeyNode>, ring: seq<nat>, head: Option<nat>)
    requires InArena(ns, ring)
  {
    && (forall j, k :: 0 <= j < k < |ring| ==> ring[j] != ring[k])
    && head == (if ring == [] then None else Some(ring[0]))
    && (forall k {:trigger LinkedAt(ns, ring, k)} :: 0 <= k < |ring| ==> LinkedAt(ns, ring, k))
  }

  /** The links of the node at ring position k. */
  lemma LinksAt(ns: seq<KeyNode>, ring: seq<nat>, head: Option<nat>, k: nat)
    requires InArena(ns, ring) && RingLinked(ns, ring, head) && k < |ring|
    ensures ns[ring[k]].next == Some(ring[NextIdx(k, |ring|)])
    ensures ns[ring[k]].prev == Some(ring[PrevIdx(k, |ring|)])
    ensures !ns[ring[k]].removed
  {
    assert LinkedAt(ns, ring, k);
  }

  function NodeEntry(n: KeyNode): Entry
  {
    Entry(n.key, n.val, n.hash)
  }

  /** The entries the ring visits, in order. */
  ghost function View(ns: seq<KeyNode>, ring: seq<nat>): (es: seq<Entry>)
    requires InArena(ns, ring)
    ensures |es| == |ring| && forall k {:trigger es[k]} {:trigger ns[ring[k]]} :: 0 <= k < |ring| ==> es[k] == NodeEntry(ns[ring[k]])
  {
    seq(|ring|, k requires 0 <= k < |ring| => NodeEntry(ns[ring[k]]))
  }

  /** Every node on the ring is indexed once under its cached hash, with
      the same value, and the index holds nothing else (it has exactly as
      many keys as the ring has nodes). */
  ghost predicate Indexed(ns: seq<KeyNode>, ring: seq<nat>, index: map<int, Slot>)
    requires InArena(ns, ring)
  {
    && DistinctHashes(View(ns, ring))
    && (forall k {:trigger ns[ring[k]]} :: 0 <= k < |ring| ==>
          ns[ring[k]].hash in index && index[ns[ring[k]].hash] == Slot(ring[k], ns[ring[k]].val))
    && |index| == |ring|
  }

  /** The index keys are exactly the hash codes of the live entries. */
  lemma IndexKeys(ns: seq<KeyNode>, ring: seq<nat>, index: map<int, Slot>)
    requires InArena(ns, ring) && Indexed(ns, ring, index)
    ensures index.Keys == HashesOf(View(ns, ring))
  {
    var es := View(ns, ring);
    var hs := HashesOf(es);
    forall h | h in hs ensures h in index.Keys {
      InHashesOf(es, h);
      var k := Position(es, h).value;
      assert ns[ring[k]].hash == h;
    }
    DistinctHashesCount(es);
    SubsetOfSameSize(hs, index.Keys);
  }

  lemma SubsetOfSameSize<T>(a: set<T>, b: set<T>)
    requires a <= b && |a| == |b|
    ensures a == b
  {
    assert b == a + (b - a);
    assert |b - a| == 0;
  }

  /** The slot the index holds under h belongs to the node at ring
      position k, which is where a search of the entries finds h. */
  lemma IndexedSlot(ns: seq<KeyNode>, ring: seq<nat>, index: map<int, Slot>, h: int) returns (k: nat)
    requires InArena(ns, ring) && Indexed(ns, ring, index) && h in index
    ensures k < |ring| && ns[ring[k]].hash == h && index[h] == Slot(ring[k], ns[ring[k]].val)
    ensures Position(View(ns, ring), h) == Some(k)
  {
    var es := View(ns, ring);
    IndexKeys(ns, ring, index);
    InHashesOf(es, h);
    k := Position(es, h).value;
    assert ns[ring[k]].hash == h;
  }

  /** A probe of the index finds exactly what a search of the entries finds. */
  lemma IndexedLookup(ns: seq<KeyNode>, ring: seq<nat>, index: map<int, Slot>, h: int)
    requires InArena(ns, ring) && Indexed(ns, ring, index)
    ensures Lookup(View(ns, ring), h) == if h in index then Some(index[h].val) else None
    ensures h in index <==> Position(View(ns, ring), h).Some?
  {
    IndexKeys(ns, ring, index);
    InHashesOf(View(ns, ring), h);
    if h in index {
      var k := IndexedSlot(ns, ring, index, h);
    }
  }

  /** The ring without position p, position by position. */
  lemma SkipIndex(r: seq<nat>, p: nat)
    requires p < |r|
    ensures |r[..p] + r[p + 1..]| == |r| - 1
    ensures forall x :: 0 <= x < |r| - 1 ==> (r[..p] + r[p + 1..])[x] == r[Skip(x, p)]
  {
  }

  /** The three writes of an unlink (the removed flag, the predecessor's
      forward link, the successor's back link) keep every other node's
      data and touch only the links they name. */
  lemma RelinkedForRemove(ns: seq<KeyNode>, ns': seq<KeyNode>, n: nat, prev: nat, next: nat)
    requires n < |ns| && prev < |ns| && next < |ns| && n != prev && n != next && |ns'| == |ns|
    requires forall i :: 0 <= i < |ns| && i != n && i != prev && i != next ==> ns'[i] == ns[i]
    requires ns'[n] == ns[n].(removed := true)
    requires ns'[prev] == (if prev == next then ns[prev].(next := Some(next), prev := Some(prev)) else ns[prev].(next := Some(next)))
    requires prev != next ==> ns'[next] == ns[next].(prev := Some(prev))
    ensures forall i :: 0 <= i < |ns| && i != n ==> SameData(ns'[i], ns[i])
    ensures forall i :: 0 <= i < |ns| && i != n ==> ns'[i].removed == ns[i].removed
    ensures forall i :: 0 <= i < |ns| && i != prev ==> ns'[i].next == ns[i].next
    ensures forall i :: 0 <= i < |ns| && i != next ==> ns'[i].prev == ns[i].prev
    ensures ns'[prev].next == Some(next) && ns'[next].prev == Some(prev)
  {
  }

  /** The ring without the node at position p is linked once that node's
      neighbours point at each other. */
  lemma RemovedRingLinked(ns: seq<KeyNode>, ns': seq<KeyNode>, r: seq<nat>, r': seq<nat>, p: nat, head: Option<nat>, head': Option<nat>)
    requires InArena(ns, r) && RingLinked(ns, r, head)
    requires 1 < |r| && p < |r|
    requires |r'| == |r| - 1 && forall x :: 0 <= x < |r'| ==> r'[x] == r[Skip(x, p)]
    requires |ns'| == |ns|
    requires var prev := r[PrevIdx(p, |r|)];
             var next := r[NextIdx(p, |r|)];
             && ns'[prev].next == Some(next) && ns'[next].prev == Some(prev)
             && (forall i :: 0 <= i < |ns| && i != r[p] ==> ns'[i].removed == ns[i].removed)
             && (forall i :: 0 <= i < |ns| && i != prev ==> ns'[i].next == ns[i].next)
             && (forall i :: 0 <= i < |ns| && i != next ==> ns'[i].prev == ns[i].prev)
    requires head' == if p == 0 then Some(r[1]) else head
    ensures InArena(ns', r') && RingLinked(ns', r', head')
  {
    forall j, k | 0 <= j < k < |r'| ensures r'[j] != r'[k] {
      assert Skip(j, p) < Skip(k, p);
    }
    forall k | 0 <= k < |r'| ensures LinkedAt(ns', r', k) {
      RemovedLinkAt(ns, ns', r, p, head, k);
    }
  }

  /** Position k of the ring without position p is position Skip(k, p) of the ring. */
  function Skip(k: nat, p: nat): nat
  {
    if k < p then k else k + 1
  }

  /** The links of one node of the shortened ring, by its old position. */
  lemma RemovedLinkAt(ns: seq<KeyNode>, ns': seq<KeyNode>, r: seq<nat>, p: nat, head: Option<nat>, k: nat)
    requires InArena(ns, r) && RingLinked(ns, r, head)
    requires 1 < |r| && p < |r| && k < |r| - 1
    requires |ns'| == |ns|
    requires var prev := r[PrevIdx(p, |r|)];
             var next := r[NextIdx(p, |r|)];
             && ns'[prev].next == Some(next) && ns'[next].prev == Some(prev)
             && (forall i :: 0 <= i < |ns| && i != r[p] ==> ns'[i].removed == ns[i].removed)
             && (forall i :: 0 <= i < |ns| && i != prev ==> ns'[i].next == ns[i].next)
             && (forall i :: 0 <= i < |ns| && i != next ==> ns'[i].prev == ns[i].prev)
    ensures ns'[r[Skip(k, p)]].next == Some(r[Skip(NextIdx(k, |r| - 1), p)])
    ensures ns'[r[Skip(k, p)]].prev == Some(r[Skip(PrevIdx(k, |r| - 1), p)])
    ensures !ns'[r[Skip(k, p)]].removed
  {
    var len := |r|;
    var k0 := Skip(k, p);
    LinksAt(ns, r, head, k0);
    assert r[k0] != r[p];
    if k0 == PrevIdx(p, len) {
    } else {
      assert r[k0] != r[PrevIdx(p, len)];
    }
    if k0 == NextIdx(p, len) {
    } else {
      assert r[k0] != r[NextIdx(p, len)];
    }
  }

  /** The three writes of an append (new node, its two neighbours'
      back and forward links) keep every old node's data and removed
      flag, and touch only the links they name. */
  lemma RelinkedForAppend(ns: seq<KeyNode>, ns': seq<KeyNode>, first: nat, last: nat, n: nat)
    requires n == |ns| && first < n && last < n && |ns'| == n + 1
    requires forall i :: 0 <= i < n && i != first && i != last ==> ns'[i] == ns[i]
    requires ns'[first] == (if first == last then ns[first].(prev := Some(n), next := Some(n)) else ns[first].(prev := Some(n)))
    requires first != last ==> ns'[last] == ns[last].(next := Some(n))
    ensures forall i :: 0 <= i < n ==> SameData(ns'[i], ns[i]) && ns'[i].removed == ns[i].removed
    ensures forall i :: 0 <= i < n && i != last ==> ns'[i].next == ns[i].next
    ensures forall i :: 0 <= i < n && i != first ==> ns'[i].prev == ns[i].prev
  {
  }

  /** The ring with a fresh node n after its last node is linked once the
      old last node and the head point at n. */
  lemma AppendedRingLinked(ns: seq<KeyNode>, ns': seq<KeyNode>, r: seq<nat>, head: Option<nat>, n: nat)
    requires InArena(ns, r) && RingLinked(ns, r, head) && r != []
    requires n == |ns| && |ns'| == n + 1
    requires ns'[n].next == Some(r[0]) && ns'[n].prev == Some(r[|r| - 1]) && !ns'[n].removed
    requires ns'[r[|r| - 1]].next == Some(n) && ns'[r[0]].prev == Some(n)
    requires forall i :: 0 <= i < n ==> ns'[i].removed == ns[i].removed
    requires forall i :: 0 <= i < n && i != r[|r| - 1] ==> ns'[i].next == ns[i].next
    requires forall i :: 0 <= i < n && i != r[0] ==> ns'[i].prev == ns[i].prev
    ensures InArena(ns', r + [n]) && RingLinked(ns', r + [n], head)
  {
    var r' := r + [n];
    var len := |r|;
    forall k | 0 <= k < |r'| ensures LinkedAt(ns', r', k) {
      if k < len {
        LinksAt(ns, r, head, k);
        if k != len - 1 { assert r[k] != r[len - 1]; }
        if k != 0 { assert r[k] != r[0]; }
      }
    }
  }

  /** Changing only node data (not links or removed flags) keeps the ring. */
  lemma SameLinksRingLinked(ns: seq<KeyNode>, ns': seq<KeyNode>, ring: seq<nat>, head: Option<nat>)
    requires InArena(ns, ring) && RingLinked(ns, ring, head) && |ns'| == |ns|
    requires forall i :: 0 <= i < |ns| ==>
               ns'[i].next == ns[i].next && ns'[i].prev == ns[i].prev && ns'[i].removed == ns[i].removed
    ensures InArena(ns', ring) && RingLinked(ns', ring, head)
  {
    forall k | 0 <= k < |ring| ensures LinkedAt(ns', ring, k) {
      LinksAt(ns, ring, head, k);
    }
  }

  /** Overwriting the value of a ring node overwrites its entry and no other. */
  lemma OverwriteView(ns: seq<KeyNode>, ring: seq<nat>, head: Option<nat>, k: nat, val: Value)
    requires InArena(ns, ring) && RingLinked(ns, ring, head) && k < |ring|
    ensures var ns' := ns[ring[k] := ns[ring[k]].(val := val)];
            && InArena(ns', ring) && RingLinked(ns', ring, head)
            && View(ns', ring) == View(ns, ring)[k := View(ns, ring)[k].(val := val)]
  {
    var m := ring[k];
    var ns' := ns[m := ns[m].(val := val)];
    SameLinksRingLinked(ns, ns', ring, head);
    var es, es' := View(ns, ring), View(ns', ring);
    forall j | 0 <= j < |ring| ensures es'[j] == es[k := es[k].(val := val)][j] {
      if j != k { assert ring[j] != m; }
    }
  }

  /** Overwriting the value of the node at ring position k, in the node and
      in its index slot, keeps the index consistent. */
  lemma OverwriteIndexed(ns: seq<KeyNode>, ring: seq<nat>, head: Option<nat>, index: map<int, Slot>, k: nat, val: Value)
    requires InArena(ns, ring) && RingLinked(ns, ring, head) && Indexed(ns, ring, index) && k < |ring|
    ensures var m := ring[k];
            var ns' := ns[m := ns[m].(val := val)];
            && InArena(ns', ring) && RingLinked(ns', ring, head)
            && Indexed(ns', ring, index[ns[m].hash := Slot(m, val)])
  {
    var m := ring[k];
    var ns' := ns[m := ns[m].(val := val)];
    OverwriteView(ns, ring, head, k, val);
    var es, es' := View(ns, ring), View(ns', ring);
    var index' := index[ns[m].hash := Slot(m, val)];
    forall j {:trigger ns'[ring[j]]} | 0 <= j < |ring|
      ensures ns'[ring[j]].hash in index' && index'[ns'[ring[j]].hash] == Slot(ring[j], ns'[ring[j]].val)
    {
      if j != k {
        assert ring[j] != m;
        assert es[j].hash != es[k].hash;
      }
    }
    assert DistinctHashes(es') by {
      forall a, b | 0 <= a < b < |es'| ensures es'[a].hash != es'[b].hash {
        assert es'[a].hash == es[a].hash && es'[b].hash == es[b].hash;
      }
    }
  }

  /** Indexing a freshly appended node under its (new) hash code keeps the
      index consistent, and the new entry comes last. */
  lemma AppendIndexed(ns: seq<KeyNode>, ns': seq<KeyNode>, ring: seq<nat>, index: map<int, Slot>, e: Entry)
    requires InArena(ns, ring) && Indexed(ns, ring, index)
    requires |ns'| == |ns| + 1 && NodeEntry(ns'[|ns|]) == e && e.hash !in index
    requires forall i :: 0 <= i < |ns| ==> SameData(ns'[i], ns[i])
    ensures InArena(ns', ring + [|ns|])
    ensures Indexed(ns', ring + [|ns|], index[e.hash := Slot(|ns|, e.val)])
    ensures View(ns', ring + [|ns|]) == View(ns, ring) + [e]
  {
    var n := |ns|;
    var r' := ring + [n];
    var es := View(ns, ring);
    var es' := View(ns', r');
    assert es' == es + [e] by {
      forall j | 0 <= j < |r'| ensures es'[j] == (es + [e])[j] {
        if j < |ring| { assert r'[j] == ring[j]; }
      }
    }
    IndexKeys(ns, ring, index);
    InHashesOf(es, e.hash);
    assert DistinctHashes(es') by {
      forall a, b | 0 <= a < b < |es'| ensures es'[a].hash != es'[b].hash {
        if b == |ring| {
          assert es'[a] == es[a];
        } else {
          assert es'[a] == es[a] && es'[b] == es[b];
        }
      }
    }
    var index' := index[e.hash := Slot(n, e.val)];
    forall j {:trigger ns'[r'[j]]} | 0 <= j < |r'|
      ensures ns'[r'[j]].hash in index' && index'[ns'[r'[j]].hash] == Slot(r'[j], ns'[r'[j]].val)
    {
      if j < |ring| {
        assert r'[j] == ring[j];
        assert es[j].hash in index;
      }
    }
    IndexKeys(ns, ring, index);
  }

  /** A sequence that lists s without position p, position by position, is s without position p. */
  lemma SkippedSeq<T>(s: seq<T>, s': seq<T>, p: nat)
    requires p < |s| && |s'| == |s| - 1
    requires forall x :: 0 <= x < |s'| ==> s'[x] == s[Skip(x, p)]
    ensures s' == s[..p] + s[p + 1..]
  {
    var t := s[..p] + s[p + 1..];
    forall x | 0 <= x < |s'| ensures s'[x] == t[x] {
      if x < p { assert t[x] == s[x]; } else { assert t[x] == s[x + 1]; }
    }
  }

  /** Dropping ring position p, with every other node's data kept, drops entry p. */
  lemma RemoveView(ns: seq<KeyNode>, ns': seq<KeyNode>, r: seq<nat>, r': seq<nat>, head: Option<nat>, p: nat)
    requires InArena(ns, r) && RingLinked(ns, r, head) && p < |r|
    requires |r'| == |r| - 1 && forall x :: 0 <= x < |r'| ==> r'[x] == r[Skip(x, p)]
    requires |ns'| == |ns| && forall i :: 0 <= i < |ns| && i != r[p] ==> SameData(ns'[i], ns[i])
    ensures InArena(ns', r')
    ensures forall x :: 0 <= x < |r'| ==> View(ns', r')[x] == View(ns, r)[Skip(x, p)]
    ensures View(ns', r') == View(ns, r)[..p] + View(ns, r)[p + 1..]
  {
    var es := View(ns, r);
    forall x | 0 <= x < |r'| ensures r'[x] < |ns'| && r'[x] != r[p] {
      assert Skip(x, p) != p;
    }
    var es' := View(ns', r');
    forall x | 0 <= x < |r'| ensures es'[x] == es[Skip(x, p)] {
      assert r'[x] != r[p];
    }
    SkippedSeq(es, es', p);
  }

  /** Dropping the node at ring position p from the ring and its hash code
      from the index keeps the index consistent. */
  lemma RemoveIndexed(ns: seq<KeyNode>, ns': seq<KeyNode>, r: seq<nat>, r': seq<nat>, head: Option<nat>, index: map<int, Slot>, p: nat)
    requires InArena(ns, r) && RingLinked(ns, r, head) && Indexed(ns, r, index) && p < |r|
    requires |r'| == |r| - 1 && forall x :: 0 <= x < |r'| ==> r'[x] == r[Skip(x, p)]
    requires |ns'| == |ns| && forall i :: 0 <= i < |ns| && i != r[p] ==> SameData(ns'[i], ns[i])
    ensures InArena(ns', r')
    ensures Indexed(ns', r', index - {ns[r[p]].hash})
  {
    RemoveView(ns, ns', r, r', head, p);
    var h := ns[r[p]].hash;
    var es := View(ns, r);
    var es' := View(ns', r');
    assert DistinctHashes(es') by {
      forall a, b | 0 <= a < b < |es'| ensures es'[a].hash != es'[b].hash {
        assert Skip(a, p) < Skip(b, p);
      }
    }
    var index' := index - {h};
    forall x {:trigger ns'[r'[x]]} | 0 <= x < |r'|
      ensures ns'[r'[x]].hash in index' && index'[ns'[r'[x]].hash] == Slot(r'[x], ns'[r'[x]].val)
    {
      assert es'[x] == es[Skip(x, p)];
      assert es[Skip(x, p)].hash != es[p].hash;
      assert r'[x] != r[p];
    }
    assert h in index by { LinksAt(ns, r, head, p); }
  }

  /** One step of the ring walk: the successor of position i is position
      i + 1, and it is the head again exactly after the last position. */
  lemma StepAlong(ns: seq<KeyNode>, ring: seq<nat>, head: Option<nat>, i: nat)
    requires InArena(ns, ring) && RingLinked(ns, ring, head) && i < |ring|
    ensures head.Some? && ns[ring[i]].next.Some?
    ensures i + 1 < |ring| ==> ns[ring[i]].next.value == ring[i + 1] != head.value
    ensures i + 1 == |ring| ==> ns[ring[i]].next.value == head.value
  {
    LinksAt(ns, ring, head, i);
  }

  /** What `inspect` writes for one entry. */
  function RenderEntry(e: Entry, d: Dispatch): string
  {
    d.inspect(e.key) + "=>" + d.inspect(e.val)
  }

  function Rendered(es: seq<Entry>, d: Dispatch): (r: seq<string>)
    ensures |r| == |es| && forall i :: 0 <= i < |es| ==> r[i] == RenderEntry(es[i], d)
  {
    seq(|es|, i requires 0 <= i < |es| => RenderEntry(es[i], d))
  }

  /** The entry e has a counterpart in `os` under its key's hash code, and
      its value is `==` to the counterpart's. */
  predicate MatchedIn(e: Entry, os: seq<Entry>, d: Dispatch)
  {
    match Lookup(os, d.hash(e.key))
    case None => false
    case Some(v) => d.equals(e.val, v)
  }

  /** `==` between two tables: the same size, and every entry of the first matched in the second. */
  predicate HashEqual(es: seq<Entry>, os: seq<Entry>, d: Dispatch)
  {
    |es| == |os| && forall i :: 0 <= i < |es| ==> MatchedIn(es[i], os, d)
  }

  /** The value of the first block run over the entries, in order, that breaks. */
  function FirstBreak(es: seq<Entry>, b: BlockRef, d: Dispatch): Option<Value>
  {
    if es == [] then None
    else match d.run(b, [es[0].key, es[0].val])
      case Broke(v) => Some(v)
      case Normal(_) => FirstBreak(es[1..], b, d)
  }

  /** A table whose cached hash codes are its keys' hash codes is `==` to
      itself when `==` on values is reflexive. */
  lemma HashEqualReflexive(es: seq<Entry>, d: Dispatch)
    requires DistinctHashes(es)
    requires forall i :: 0 <= i < |es| ==> es[i].hash == d.hash(es[i].key)
    requires forall v :: d.equals(v, v)
    ensures HashEqual(es, es, d)
  {
    forall i | 0 <= i < |es| ensures MatchedIn(es[i], es, d) {
      PositionOfDistinct(es, i);
    }
  }

  /** Tables of different sizes are never `==`. */
  lemma HashEqualNeedsSameSize(es: seq<Entry>, os: seq<Entry>, d: Dispatch)
    requires |es| != |os|
    ensures !HashEqual(es, os, d)
  {
  }

  /** An entry whose key's hash code is missing from the other table makes the tables unequal. */
  lemma HashEqualNeedsEveryKey(es: seq<Entry>, os: seq<Entry>, d: Dispatch, i: nat)
    requires i < |es| && Position(os, d.hash(es[i].key)).None?
    ensures !HashEqual(es, os, d)
  {
    assert !MatchedIn(es[i], os, d);
  }

  /** The block breaks at entry i and at no earlier entry. */
  ghost predicate BreaksFirstAt(es: seq<Entry>, b: BlockRef, d: Dispatch, i: nat)
  {
    && i < |es| && d.run(b, [es[i].key, es[i].val]).Broke?
    && forall j :: 0 <= j < i ==> d.run(b, [es[j].key, es[j].val]).Normal?
  }

  /** `each` ends early exactly when some run of the block breaks, with that run's value. */
  lemma {:induction false} FirstBreakFound(es: seq<Entry>, b: BlockRef, d: Dispatch, i: nat)
    requires BreaksFirstAt(es, b, d, i)
    ensures FirstBreak(es, b, d) == Some(d.run(b, [es[i].key, es[i].val]).value)
    decreases i
  {
    if i > 0 {
      assert d.run(b, [es[0].key, es[0].val]).Normal?;
      var rest := es[1..];
      forall j | 0 <= j < i - 1 ensures d.run(b, [rest[j].key, rest[j].val]).Normal? {
        assert rest[j] == es[j + 1];
      }
      FirstBreakFound(rest, b, d, i - 1);
    }
  }

  lemma {:induction false} FirstBreakHasWitness(es: seq<Entry>, b: BlockRef, d: Dispatch)
    requires FirstBreak(es, b, d).Some?
    ensures exists i: nat :: BreaksFirstAt(es, b, d, i) && FirstBreak(es, b, d) == Some(d.run(b, [es[i].key, es[i].val]).value)
    decreases |es|
  {
    if d.run(b, [es[0].key, es[0].val]).Broke? {
      assert BreaksFirstAt(es, b, d, 0);
    } else {
      var rest := es[1..];
      FirstBreakHasWitness(rest, b, d);
      var i: nat :| BreaksFirstAt(rest, b, d, i) && FirstBreak(rest, b, d) == Some(d.run(b, [rest[i].key, rest[i].val]).value);
      forall j | 0 <= j < i + 1 ensures d.run(b, [es[j].key, es[j].val]).Normal? {
        if j > 0 { assert es[j] == rest[j - 1]; }
      }
      assert es[i + 1] == rest[i];
      assert BreaksFirstAt(es, b, d, i + 1);
    }
  }

  /** `each` runs to the end exactly when no run of the block breaks. */
  lemma {:induction false} FirstBreakNone(es: seq<Entry>, b: BlockRef, d: Dispatch)
    ensures FirstBreak(es, b, d).None? <==> forall j :: 0 <= j < |es| ==> d.run(b, [es[j].key, es[j].val]).Normal?
    decreases |es|
  {
    if es != [] {
      var rest := es[1..];
      FirstBreakNone(rest, b, d);
      if d.run(b, [es[0].key, es[0].val]).Normal? {
        assert forall j :: 1 <= j < |es| ==> es[j] == rest[j - 1];
        assert (forall j :: 0 <= j < |es| ==> d.run(b, [es[j].key, es[j].val]).Normal?) <==>
               (forall j :: 0 <= j < |rest| ==> d.run(b, [rest[j].key, rest[j].val]).Normal?);
      }
    }
  }

  /** Writing one entry's key, arrow, value and separator after `{` + body. */
  lemma AppendRendered(out: string, body: string, k: string, v: string, sep: string)
    requires out == "{" + body
    ensures out + k + "=>" + v + sep == "{" + (body + (k + "=>" + v) + sep)
    ensures out + k + "=>" + v == "{" + (body + (k + "=>" + v))
  {
  }

  /** `inspect` of an empty table, and of a one-entry table. */
  lemma InspectSmall(e: Entry, d: Dispatch)
    ensures "{" + Join(", ", Rendered([], d)) + "}" == "{}"
    ensures "{" + Join(", ", Rendered([e], d)) + "}" == "{" + d.inspect(e.key) + "=>" + d.inspect(e.val) + "}"
  {
    assert Rendered([e], d) == [RenderEntry(e, d)];
  }

  // ---------------------------------------------------------------------
  // Hash[]: what the table built from the arguments contains.
  // ---------------------------------------------------------------------

  /** One element of the array given to Hash[]: an array of one or two
      values, the value defaulting to nil. */
  function PairOf(v: Value): (r: Result<(Value, Value)>)
  {
    if !v.Array? then Err(Error(ArgumentError, "wrong element in array to Hash[]"))
    else if |v.elems| < 1 || |v.elems| > 2 then
      Err(Error(ArgumentError, "invalid number of elements (" + DecimalString(|v.elems|) + " for 1..2)"))
    else Ok((v.elems[0], if |v.elems| == 1 then Nil else v.elems[1]))
  }

  /** The pairs of an array given to Hash[], or the error of its first malformed element. */
  function ArrayPairs(elems: seq<Value>): (r: Result<seq<(Value, Value)>>)
    ensures r.Ok? ==> |r.value| == |elems|
  {
    if elems == [] then Ok([])
    else match ArrayPairs(elems[..|elems| - 1])
      case Err(e) => Err(e)
      case Ok(ps) =>
        match PairOf(elems[|elems| - 1])
        case Err(e) => Err(e)
        case Ok(p) => Ok(ps + [p])
  }

  /** Consecutive arguments taken as key/value pairs. */
  function ArgPairs(args: seq<Value>): (r: seq<(Value, Value)>)
    requires |args| % 2 == 0
    ensures |r| == |args| / 2 && forall i :: 0 <= i < |r| ==> r[i] == (args[2 * i], args[2 * i + 1])
  {
    seq(|args| / 2, i requires 0 <= i < |args| / 2 => (args[2 * i], args[2 * i + 1]))
  }

  /** The entries after putting the pairs, in order, into an empty table. */
  function PutAll(pairs: seq<(Value, Value)>, d: Dispatch): seq<Entry>
  {
    if pairs == [] then []
    else
      var last := pairs[|pairs| - 1];
      PutEntry(PutAll(pairs[..|pairs| - 1], d), last.0, last.1, d.hash(last.0))
  }

  /** What Hash[] answers: the argument itself, or a fresh table with these entries. */
  datatype Built = Same(v: Value) | Fresh(es: seq<Entry>)

  function SquareNewSpec(args: seq<Value>, d: Dispatch): Result<Built>
  {
    if |args| == 0 then Ok(Fresh([]))
    else if |args| == 1 && args[0].Hash? then Ok(Same(args[0]))
    else if |args| == 1 && args[0].Array? then
      match ArrayPairs(args[0].elems)
      case Err(e) => Err(e)
      case Ok(ps) => Ok(Fresh(PutAll(ps, d)))
    else if |args| % 2 != 0 then Err(Error(ArgumentError, "odd number of arguments for Hash"))
    else Ok(Fresh(PutAll(ArgPairs(args), d)))
  }

  /** Once an element of the array is malformed, the whole array is refused with its error. */
  lemma {:induction false} ArrayPairsErrorSticks(elems: seq<Value>, i: nat, e: Error)
    requires i < |elems| && ArrayPairs(elems[..i + 1]) == Err(e)
    ensures ArrayPairs(elems) == Err(e)
    decreases |elems|
  {
    if |elems| == i + 1 {
      assert elems[..i + 1] == elems;
    } else {
      var init := elems[..|elems| - 1];
      assert init[..i + 1] == elems[..i + 1];
      ArrayPairsErrorSticks(init, i, e);
    }
  }

  lemma ArrayPairsStep(elems: seq<Value>, i: nat)
    requires i < |elems| && ArrayPairs(elems[..i]).Ok?
    ensures ArrayPairs(elems[..i + 1]) == match PairOf(elems[i])
                                         case Err(e) => Err(e)
                                         case Ok(p) => Ok(ArrayPairs(elems[..i]).value + [p])
  {
    assert elems[..i + 1][..i] == elems[..i];
  }

  lemma PutAllStep(ps: seq<(Value, Value)>, p: (Value, Value), d: Dispatch)
    ensures PutAll(ps + [p], d) == PutEntry(PutAll(ps, d), p.0, p.1, d.hash(p.0))
  {
    assert (ps + [p])[..|ps|] == ps;
  }

  lemma {:induction false} PutAllDistinct(pairs: seq<(Value, Value)>, d: Dispatch)
    ensures DistinctHashes(PutAll(pairs, d))
    decreases |pairs|
  {
    if pairs != [] {
      var last := pairs[|pairs| - 1];
      PutAllDistinct(pairs[..|pairs| - 1], d);
      PutKeepsDistinct(PutAll(pairs[..|pairs| - 1], d), last.0, last.1, d.hash(last.0));
    }
  }

  /** With pairwise different key hash codes, Hash[] keeps every pair, in argument order. */
  lemma {:induction false} PutAllOfDistinctKeys(pairs: seq<(Value, Value)>, d: Dispatch)
    requires forall i, j :: 0 <= i < j < |pairs| ==> d.hash(pairs[i].0) != d.hash(pairs[j].0)
    ensures |PutAll(pairs, d)| == |pairs|
    ensures forall i :: 0 <= i < |pairs| ==> PutAll(pairs, d)[i] == Entry(pairs[i].0, pairs[i].1, d.hash(pairs[i].0))
    decreases |pairs|
  {
    if pairs != [] {
      var n := |pairs| - 1;
      var init := pairs[..n];
      PutAllOfDistinctKeys(init, d);
      var es := PutAll(init, d);
      var h := d.hash(pairs[n].0);
      forall j | 0 <= j < |es| ensures es[j].hash != h {
        assert es[j].hash == d.hash(pairs[j].0);
      }
      assert Position(es, h).None?;
    }
  }

  /** A key given twice to Hash[] keeps its first position and its last value. */
  lemma RepeatedKeyKeepsLastValue(k: Value, v1: Value, v2: Value, d: Dispatch)
    ensures var es := PutAll(ArgPairs([k, v1, k, v2]), d);
            es == [Entry(k, v2, d.hash(k))]
  {
    var ps := ArgPairs([k, v1, k, v2]);
    assert ps == [(k, v1), (k, v2)];
    assert ps[..1] == [(k, v1)];
    assert ps[..1][..0] == [];
    assert PutAll(ps[..1], d) == [Entry(k, v1, d.hash(k))];
  }

  class HashValue {
    var nodes: seq<KeyNode>          // every Key node ever allocated
    var keyList: Option<nat>         // m_key_list: the head of the ring
    var hashmap: map<int, Slot>      // m_hashmap, keyed by cached hash
    var isIterating: bool            // m_is_iterating
    var defaultValue: Value          // m_default_value
    var defaultBlock: Option<BlockRef> // m_default_block
    ghost var ring: seq<nat>         // the ring's nodes in iteration order

    ghost predicate Valid()
      reads this
    {
      InArena(nodes, ring) && RingLinked(nodes, ring, keyList) && Indexed(nodes, ring, hashmap)
    }

    /** The live entries in iteration (insertion) order. */
    ghost function Entries(): seq<Entry>
      reads this
      requires InArena(nodes, ring)
    {
      View(nodes, ring)
    }

    /** HashValue(env): empty, default value nil, no default block. */
    constructor ()
      ensures Valid() && Entries() == []
      ensures !isIterating && defaultValue == Nil && defaultBlock == None
    {
      nodes, keyList, hashmap := [], None, map[];
      isIterating, defaultValue, defaultBlock := false, Nil, None;
      ring := [];
    }

    /** get: the value stored under the key's hash code, or nothing (nullptr). */
    function Get(key: Value, d: Dispatch): (r: Option<Value>)
      reads this
      requires Valid()
      ensures r == Lookup(Entries(), d.hash(key))
    {
      IndexedLookup(nodes, ring, hashmap, d.hash(key));
      if d.hash(key) in hashmap then Some(hashmap[d.hash(key)].val) else None
    }
  
    /** key_list_append: a new node after the current last one, so that it
        is visited last; on an empty ring, a one-node self-loop that becomes
        the head. Returns the new node. */
    method KeyListAppend(key: Value, val: Value, d: Dispatch) returns (n: nat)
      requires InArena(nodes, ring) && RingLinked(nodes, ring, keyList)
      modifies this`nodes, this`keyList, this`ring
      ensures n == |old(nodes)| && |nodes| == n + 1
      ensures ring == old(ring) + [n]
      ensures InArena(nodes, ring) && RingLinked(nodes, ring, keyList)
      ensures NodeEntry(nodes[n]) == Entry(key, val, d.hash(key)) && !nodes[n].removed
      ensures forall i :: 0 <= i < n ==> SameData(nodes[i], old(nodes[i]))
      ensures old(keyList).None? ==> keyList == Some(n) && nodes[n].prev == Some(n) && nodes[n].next == Some(n)
      ensures old(keyList).Some? ==> keyList == old(keyList) && nodes[n].next == old(keyList)
                                     && nodes[n].prev == old(nodes[keyList.value].prev)
    {
      n := |nodes|;
      if keyList.Some? {
        var first := keyList.value;
        LinksAt(nodes, ring, keyList, 0);
        var last := nodes[first].prev.value;
        ghost var r := ring;
        ghost var len := |r|;
        assert last == r[len - 1];
        // <first> ... <last> <new_last> and back to <first>
        nodes := nodes + [KeyNode(key, val, d.hash(key), Some(last), Some(first), false)];
        nodes := nodes[first := nodes[first].(prev := Some(n))];
        nodes := nodes[last := nodes[last].(next := Some(n))];
        ring := ring + [n];
        RelinkedForAppend(old(nodes), nodes, first, last, n);
        AppendedRingLinked(old(nodes), nodes, r, keyList, n);
      } else {
        nodes := nodes + [KeyNode(key, val, d.hash(key), Some(n), Some(n), false)];
        keyList := Some(n);
        ring := [n];
      }
    }

    /** key_list_remove_node: unlink the node at ring position `p` and mark
        it removed. The sole node leaves an empty ring (head null); removing
        the head moves the head to the next node; the neighbours are linked
        to each other. */
    method KeyListRemoveNode(n: nat, ghost p: nat)
      requires InArena(nodes, ring) && RingLinked(nodes, ring, keyList)
      requires p < |ring| && ring[p] == n
      modifies this`nodes, this`keyList, this`ring
      ensures ring == old(ring)[..p] + old(ring)[p + 1..]
      ensures InArena(nodes, ring) && RingLinked(nodes, ring, keyList)
      ensures |nodes| == |old(nodes)| && nodes[n].removed
      ensures NodeEntry(nodes[n]) == NodeEntry(old(nodes[n]))
      ensures forall i :: 0 <= i < |nodes| && i != n ==> SameData(nodes[i], old(nodes[i]))
      ensures |old(ring)| == 1 ==> keyList == None && nodes[n].prev == None && nodes[n].next == None
      ensures |old(ring)| > 1 && old(keyList) == Some(n) ==> keyList == old(nodes[n].next)
      ensures |old(ring)| > 1 && old(keyList) != Some(n) ==> keyList == old(keyList)
      ensures var r, len := old(ring), |old(ring)|;
              len > 1 ==> nodes[r[PrevIdx(p, len)]].next == Some(r[NextIdx(p, len)]) &&
                          nodes[r[NextIdx(p, len)]].prev == Some(r[PrevIdx(p, len)])
    {
      ghost var r := ring;
      ghost var len := |r|;
      LinksAt(nodes, ring, keyList, p);
      var prev := nodes[n].prev.value;
      var next := nodes[n].next.value;
      if n == next {
        nodes := nodes[n := nodes[n].(prev := None, next := None, removed := true)];
        keyList := None;
        ring := [];
        return;
      } else if keyList == Some(n) {
        // the head is the node being removed, so the head moves forward by one
        keyList := Some(next);
      }
      nodes := nodes[n := nodes[n].(removed := true)];
      nodes := nodes[prev := nodes[prev].(next := Some(next))];
      nodes := nodes[next := nodes[next].(prev := Some(prev))];
      ring := r[..p] + r[p + 1..];
      RelinkedForRemove(old(nodes), nodes, n, prev, next);
      SkipIndex(r, p);
      RemovedRingLinked(old(nodes), nodes, r, ring, p, old(keyList), keyList);
    }

    /** put: a present hash code has its value overwritten in the key node
        and in the index slot, in place; an absent one is refused while the
        table is iterating, and otherwise appended at the tail of the ring
        and indexed. */
    method Put(key: Value, val: Value, d: Dispatch) returns (s: Status)
      requires Valid()
      modifies this`nodes, this`keyList, this`ring, this`hashmap
      ensures Valid()
      ensures var h := d.hash(key);
              if Position(old(Entries()), h).None? && isIterating
              then s == Fail(Error(RuntimeError, "can't add a new key into hash during iteration"))
                   && nodes == old(nodes) && keyList == old(keyList) && ring == old(ring) && hashmap == old(hashmap)
              else s == Pass && Entries() == PutEntry(old(Entries()), key, val, h)
    {
      var h := d.hash(key);
      IndexedLookup(nodes, ring, hashmap, h);
      if h in hashmap {
        var container := hashmap[h];
        ghost var k := IndexedSlot(nodes, ring, hashmap, h);
        OverwriteIndexed(nodes, ring, keyList, hashmap, k, val);
        OverwriteView(nodes, ring, keyList, k, val);
        nodes := nodes[container.node := nodes[container.node].(val := val)];
        hashmap := hashmap[h := container.(val := val)];
        return Pass;
      }
      if isIterating {
        return Fail(Error(RuntimeError, "can't add a new key into hash during iteration"));
      }
      ghost var ns, r, index := nodes, ring, hashmap;
      var n := KeyListAppend(key, val, d);
      hashmap := hashmap[nodes[n].hash := Slot(n, val)];
      AppendIndexed(ns, nodes, r, index, Entry(key, val, h));
      s := Pass;
    }

    /** remove: the index forgets the hash code; a present entry is also
        unlinked from the ring, and its value is returned; an absent one
        yields nothing (nullptr) and changes nothing. */
    method Remove(key: Value, d: Dispatch) returns (r: Option<Value>)
      requires Valid()
      modifies this`nodes, this`keyList, this`ring, this`hashmap
      ensures Valid()
      ensures r == Lookup(old(Entries()), d.hash(key))
      ensures Entries() == RemoveEntry(old(Entries()), d.hash(key))
      ensures r.None? ==> nodes == old(nodes) && keyList == old(keyList) && ring == old(ring) && hashmap == old(hashmap)
    {
      var h := d.hash(key);
      IndexedLookup(nodes, ring, hashmap, h);
      var container: Option<Slot> := if h in hashmap then Some(hashmap[h]) else None;
      hashmap := hashmap - {h};
      if container.Some? {
        ghost var ns, rg, index := nodes, ring, old(hashmap);
        ghost var p := IndexedSlot(ns, rg, index, h);
        KeyListRemoveNode(container.value.node, p);
        SkipIndex(rg, p);
        RemoveIndexed(ns, nodes, rg, ring, old(keyList), index, p);
        RemoveView(ns, nodes, rg, ring, old(keyList), p);
        return Some(container.value.val);
      }
      return None;
    }

    /** size: the number of index slots, which is the number of live entries. */
    function Size(): (n: nat)
      reads this
      requires Valid()
      ensures n == |Entries()|
    {
      IndexKeys(nodes, ring, hashmap);
      DistinctHashesCount(Entries());
      |hashmap|
    }

    /** has_key: whether get finds something. */
    function HasKey(key: Value, d: Dispatch): (b: bool)
      reads this
      requires Valid()
      ensures b <==> Position(Entries(), d.hash(key)).Some?
    {
      Get(key, d).Some?
    }

    /** get_default: the default block run with the hash and the key, if
        there is one, else the default value. */
    function GetDefault(key: Value, d: Dispatch): (v: Value)
      reads this
      ensures defaultBlock.None? ==> v == defaultValue
      ensures defaultBlock.Some? ==> v == d.run(defaultBlock.value, [Hash(this), key]).value
    {
      match defaultBlock
      case Some(b) => d.run(b, [Hash(this), key]).value
      case None => defaultValue
    }

    /** ref (`[]`): the stored value, or the default for this key. */
    function Ref(key: Value, d: Dispatch): (v: Value)
      reads this
      requires Valid()
      ensures Position(Entries(), d.hash(key)).Some? ==> v == Entries()[Position(Entries(), d.hash(key)).value].val
      ensures Position(Entries(), d.hash(key)).None? ==> v == GetDefault(key, d)
    {
      match Get(key, d)
      case Some(v) => v
      case None => GetDefault(key, d)
    }

    /** delete_key: remove, with an absent key answered by nil. */
    method DeleteKey(key: Value, d: Dispatch) returns (v: Value)
      requires Valid()
      modifies this`nodes, this`keyList, this`ring, this`hashmap
      ensures Valid()
      ensures Entries() == RemoveEntry(old(Entries()), d.hash(key))
      ensures v == match Lookup(old(Entries()), d.hash(key)) case Some(x) => x case None => Nil
    {
      var r := Remove(key, d);
      v := if r.Some? then r.value else Nil;
    }

    /** refeq (`[]=`): put, answering the value stored. */
    method RefEq(key: Value, val: Value, d: Dispatch) returns (r: Result<Value>)
      requires Valid()
      modifies this`nodes, this`keyList, this`ring, this`hashmap
      ensures Valid()
      ensures var h := d.hash(key);
              if Position(old(Entries()), h).None? && isIterating
              then r == Err(Error(RuntimeError, "can't add a new key into hash during iteration"))
                   && nodes == old(nodes) && keyList == old(keyList) && ring == old(ring) && hashmap == old(hashmap)
              else r == Ok(val) && Entries() == PutEntry(old(Entries()), key, val, h)
    {
      var s := Put(key, val, d);
      if s.Fail? {
        return Err(s.error);
      }
      r := Ok(val);
    }

    /** initialize: a block and a default value together are an arity
        error; otherwise a block becomes the default block, a value the
        default value, and nothing given changes nothing. */
    method Initialize(defaultArg: Option<Value>, block: Option<BlockRef>) returns (r: Result<Value>)
      modifies this`defaultValue, this`defaultBlock
      ensures block.Some? && defaultArg.Some? ==>
                r == Err(Error(ArgumentError, "wrong number of arguments (given 1, expected 0)"))
                && defaultValue == old(defaultValue) && defaultBlock == old(defaultBlock)
      ensures block.Some? && defaultArg.None? ==>
                r == Ok(Hash(this)) && defaultBlock == block && defaultValue == old(defaultValue)
      ensures block.None? && defaultArg.Some? ==>
                r == Ok(Hash(this)) && defaultValue == defaultArg.value && defaultBlock == old(defaultBlock)
      ensures block.None? && defaultArg.None? ==>
                r == Ok(Hash(this)) && defaultValue == old(defaultValue) && defaultBlock == old(defaultBlock)
    {
      if block.Some? {
        if defaultArg.Some? {
          return Err(Error(ArgumentError, "wrong number of arguments (given 1, expected 0)"));
        }
        defaultBlock := block;
      } else if defaultArg.Some? {
        defaultValue := defaultArg.value;
      }
      r := Ok(Hash(this));
    }

    /** keys: the keys in ring order. */
    method Keys() returns (ks: seq<Value>)
      requires Valid()
      ensures ks == KeysOf(Entries())
    {
      ks := [];
      var more := keyList.Some?;
      var node := if more then keyList.value else 0;
      ghost var i := 0;
      while more
        invariant 0 <= i <= |ring| && (more <==> i < |ring|) && (more ==> node == ring[i])
        invariant |ks| == i && forall j :: 0 <= j < i ==> ks[j] == Entries()[j].key
        decreases |ring| - i
      {
        ks := ks + [nodes[node].key];
        StepAlong(nodes, ring, keyList, i);
        node := nodes[node].next.value;
        i := i + 1;
        more := node != keyList.value;
      }
    }

    /** values: the values in ring order. */
    method Values() returns (vs: seq<Value>)
      requires Valid()
      ensures vs == ValuesOf(Entries())
    {
      vs := [];
      var more := keyList.Some?;
      var node := if more then keyList.value else 0;
      ghost var i := 0;
      while more
        invariant 0 <= i <= |ring| && (more <==> i < |ring|) && (more ==> node == ring[i])
        invariant |vs| == i && forall j :: 0 <= j < i ==> vs[j] == Entries()[j].val
        decreases |ring| - i
      {
        vs := vs + [nodes[node].val];
        StepAlong(nodes, ring, keyList, i);
        node := nodes[node].next.value;
        i := i + 1;
        more := node != keyList.value;
      }
    }

    /** inspect: `{k=>v, k=>v}` in ring order, the separator written after
        every entry but the last. */
    method Inspect(d: Dispatch) returns (out: string)
      requires Valid()
      ensures out == "{" + Join(", ", Rendered(Entries(), d)) + "}"
    {
      ghost var parts := Rendered(Entries(), d);
      out := "{";
      var lastIndex: int := Size() - 1;
      var index: int := 0;
      var more := keyList.Some?;
      var node := if more then keyList.value else 0;
      ghost var body := "";
      while more
        invariant 0 <= index <= |ring| && (more <==> index < |ring|) && (more ==> node == ring[index])
        invariant out == "{" + body
        invariant index < |ring| ==> body == Terminated(", ", parts[..index])
        invariant index == |ring| ==> body == Join(", ", parts)
        decreases |ring| - index
      {
        var keyRepr := d.inspect(nodes[node].key);
        var valRepr := d.inspect(nodes[node].val);
        assert parts[index] == keyRepr + "=>" + valRepr;
        ghost var sep := if index < lastIndex then ", " else "";
        AppendRendered(out, body, keyRepr, valRepr, sep);
        out := out + keyRepr;
        out := out + "=>";
        out := out + valRepr;
        if index < lastIndex {
          out := out + ", ";
          TerminatedStep(", ", parts, index);
        } else {
          JoinStep(", ", parts, index);
        }
        body := body + parts[index] + sep;
        StepAlong(nodes, ring, keyList, index);
        node := nodes[node].next.value;
        index := index + 1;
        more := node != keyList.value;
      }
      out := out + "}";
    }

    /** eq (`==`): false for a non-hash or a size mismatch; otherwise
        every key of this table, in ring order, must be found in the other
        one with a value its own value is `==` to. */
    method Eq(other: Value, d: Dispatch) returns (b: bool)
      requires Valid()
      requires other.Hash? ==> other.table.Valid()
      ensures b == (other.Hash? && HashEqual(Entries(), other.table.Entries(), d))
    {
      if !other.Hash? {
        return false;
      }
      var o := other.table;
      if Size() != o.Size() {
        return false;
      }
      var more := keyList.Some?;
      var node := if more then keyList.value else 0;
      ghost var i := 0;
      while more
        invariant 0 <= i <= |ring| && (more <==> i < |ring|) && (more ==> node == ring[i])
        invariant forall j :: 0 <= j < i ==> MatchedIn(Entries()[j], o.Entries(), d)
        decreases |ring| - i
      {
        assert Entries()[i].key == nodes[node].key && Entries()[i].val == nodes[node].val;
        var otherVal := o.Get(nodes[node].key, d);
        if otherVal.None? {
          return false;
        }
        if !d.equals(nodes[node].val, otherVal.value) {
          return false;
        }
        StepAlong(nodes, ring, keyList, i);
        node := nodes[node].next.value;
        i := i + 1;
        more := node != keyList.value;
      }
      return true;
    }

    /** each: no block is a LocalJumpError; otherwise the block runs on
        every (key, value) in ring order while the table is marked as
        iterating. The first run that breaks ends the walk, and its value
        (break flag cleared) is the answer; a walk that completes answers
        the hash itself. Either way the table is no longer iterating. */
    method Each(block: Option<BlockRef>, d: Dispatch) returns (r: Result<Value>)
      requires Valid()
      modifies this`isIterating
      ensures Valid()
      ensures block.None? ==> r == Err(Error(LocalJumpError, "no block given")) && isIterating == old(isIterating)
      ensures block.Some? ==> !isIterating && r == Ok(match FirstBreak(Entries(), block.value, d)
                                                     case Some(v) => v
                                                     case None => Hash(this))
    {
      if block.None? {
        return Err(Error(LocalJumpError, "no block given"));
      }
      var b := block.value;
      isIterating := true;
      var more := keyList.Some?;
      var node := if more then keyList.value else 0;
      ghost var i := 0;
      while more
        invariant isIterating
        invariant 0 <= i <= |ring| && (more <==> i < |ring|) && (more ==> node == ring[i])
        invariant FirstBreak(Entries(), b, d) == FirstBreak(Entries()[i..], b, d)
        decreases |ring| - i
      {
        assert Entries()[i..][0] == Entries()[i] == Entry(nodes[node].key, nodes[node].val, nodes[node].hash);
        var result := d.run(b, [nodes[node].key, nodes[node].val]);
        if result.Broke? {
          isIterating := false;
          return Ok(result.value);
        }
        assert Entries()[i..][1..] == Entries()[i + 1..];
        StepAlong(nodes, ring, keyList, i);
        node := nodes[node].next.value;
        i := i + 1;
        more := node != keyList.value;
      }
      isIterating := false;
      r := Ok(Hash(this));
    }

    /** The part of `Hash[]` that reads a single array argument as pairs. */
    static method FromArray(elems: seq<Value>, d: Dispatch) returns (r: Result<Value>)
      ensures match ArrayPairs(elems)
              case Err(e) => r == Err(e)
              case Ok(ps) =>
                && r.Ok? && r.value.Hash? && fresh(r.value.table) && r.value.table.Valid()
                && r.value.table.Entries() == PutAll(ps, d)
                && r.value.table.defaultValue == Nil && r.value.table.defaultBlock == None
                && !r.value.table.isIterating
    {
      var hash := new HashValue();
      ghost var ps: seq<(Value, Value)> := [];
      var i := 0;
      while i < |elems|
        invariant 0 <= i <= |elems|
        invariant fresh(hash) && hash.Valid() && !hash.isIterating
        invariant hash.defaultValue == Nil && hash.defaultBlock == None
        invariant ArrayPairs(elems[..i]) == Ok(ps) && hash.Entries() == PutAll(ps, d)
        modifies hash
      {
        var pair := elems[i];
        ArrayPairsStep(elems, i);
        if !pair.Array? {
          ArrayPairsErrorSticks(elems, i, Error(ArgumentError, "wrong element in array to Hash[]"));
          return Err(Error(ArgumentError, "wrong element in array to Hash[]"));
        }
        var size := |pair.elems|;
        if size < 1 || size > 2 {
          ArrayPairsErrorSticks(elems, i, Error(ArgumentError, "invalid number of elements (" + DecimalString(size) + " for 1..2)"));
          return Err(Error(ArgumentError, "invalid number of elements (" + DecimalString(size) + " for 1..2)"));
        }
        var key := pair.elems[0];
        var val := if size == 1 then Nil else pair.elems[1];
        PutAllStep(ps, (key, val), d);
        var _ := hash.Put(key, val, d);
        ps := ps + [(key, val)];
        i := i + 1;
      }
      assert elems[..i] == elems;
      return Ok(Hash(hash));
    }

    /** The part of `Hash[]` that reads the arguments as alternating keys and values. */
    static method FromPairs(args: seq<Value>, d: Dispatch) returns (table: HashValue)
      requires |args| % 2 == 0
      ensures fresh(table) && table.Valid() && table.Entries() == PutAll(ArgPairs(args), d)
      ensures table.defaultValue == Nil && table.defaultBlock == None && !table.isIterating
    {
      table := new HashValue();
      ghost var pairs := ArgPairs(args);
      ghost var k := 0;
      assert |args| == 2 * |pairs|;
      var i := 0;
      while i < |args|
        invariant 0 <= k <= |pairs| && i == 2 * k
        invariant fresh(table) && table.Valid() && !table.isIterating
        invariant table.defaultValue == Nil && table.defaultBlock == None
        invariant table.Entries() == PutAll(pairs[..k], d)
        modifies table
      {
        var key := args[i];
        var val := args[i + 1];
        assert pairs[k] == (key, val);
        assert pairs[..k + 1] == pairs[..k] + [(key, val)];
        PutAllStep(pairs[..k], (key, val), d);
        var _ := table.Put(key, val, d);
        i := i + 2;
        k := k + 1;
      }
      assert pairs[..k] == pairs;
    }

    /** square_new (`Hash[]`): no argument gives an empty table; a single
        hash is answered as it is; a single array is read as pairs of one
        or two elements; otherwise the arguments must come in key/value
        pairs. */
    static method SquareNew(args: seq<Value>, d: Dispatch) returns (r: Result<Value>)
      ensures match SquareNewSpec(args, d)
              case Err(e) => r == Err(e)
              case Ok(Same(v)) => r == Ok(v)
              case Ok(Fresh(es)) =>
                && r.Ok? && r.value.Hash? && fresh(r.value.table) && r.value.table.Valid()
                && r.value.table.Entries() == es
                && r.value.table.defaultValue == Nil && r.value.table.defaultBlock == None
                && !r.value.table.isIterating
    {
      if |args| == 0 {
        var hash := new HashValue();
        return Ok(Hash(hash));
      } else if |args| == 1 && args[0].Hash? {
        return Ok(args[0]);
      } else if |args| == 1 && args[0].Array? {
        r := FromArray(args[0].elems, d);
      } else if |args| % 2 != 0 {
        return Err(Error(ArgumentError, "odd number of arguments for Hash"));
      } else {
        var hash := FromPairs(args, d);
        return Ok(Hash(hash));
      }
    }
  }
}
