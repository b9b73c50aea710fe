/**
 The doubly linked list with its opt-in pointer-hash index, as linked nodes on
 the heap. The ghost sequence `items` is the list from head to tail, and
 `chains` holds the bucket chains; `Valid` ties them to the pointers.
 */
module ListIndex {
  import opened Common

  type Data = nat   // an address

  const INITIAL_BUCKETS: nat := 1024
  const SIZE_MAX: nat := 0xffff_ffff_ffff_ffff

  function Xor(a: nat, b: nat): nat
    decreases a + b
  {
    if a == 0 && b == 0 then 0
    else (if a % 2 != b % 2 then 1 else 0) + 2 * Xor(a / 2, b / 2)
  }

  /** `eigrp_list_pointer_hash` */
  function Hash(data: Data): nat {
    var k := data / 8;
    var k1 := Xor(k, k / 0x2_0000);
    Xor(k1, k1 / 0x200)
  }

  function Bucket(data: Data, size: nat): (b: nat)
    requires size > 0
    ensures b < size
  {
    Hash(data) % size
  }

  class Item {
    var next: Item?
    var prev: Item?
    var hashNext: Item?
    const data: Data

    constructor (data: Data)
      ensures this.data == data
      ensures next == null && prev == null && hashNext == null
    {
      this.data := data;
      next, prev, hashNext := null, null, null;
    }
  }

  function At(s: seq<Item>, i: int): Item? {
    if 0 <= i < |s| then s[i] else null
  }

  ghost predicate Distinct(s: seq<Item>) {
    forall i, j | 0 <= i < j < |s| :: s[i] != s[j]
  }

  ghost function Elements(s: seq<Item>): set<Item> { set n | n in s }

  function Without(s: seq<Item>, at: nat): seq<Item>
    requires at < |s|
  {
    s[..at] + s[at + 1..]
  }

  function WithAt(s: seq<Item>, at: nat, n: Item): seq<Item>
    requires at <= |s|
  {
    s[..at] + [n] + s[at..]
  }

  /** The chains hold exactly the nodes of `s`, each in the bucket of its data. */
  ghost predicate Partition(s: set<Item>, chains: seq<seq<Item>>) {
    && |chains| > 0
    && (forall b, n {:trigger n in chains[b]} | 0 <= b < |chains| && n in chains[b] ::
          n in s && Bucket(n.data, |chains|) == b)
    && (forall b | 0 <= b < |chains| :: Distinct(chains[b]))
    && (forall n | n in s :: n in chains[Bucket(n.data, |chains|)])
  }

  /** The pointers of the buckets spell the chains. */
  ghost predicate Threaded(s: set<Item>, chains: seq<seq<Item>>, table: array<Item?>)
    reads s, table
  {
    && table.Length == |chains|
    && (forall b | 0 <= b < |chains| :: table[b] == At(chains[b], 0))
    && (forall b, j {:trigger chains[b][j].hashNext} | 0 <= b < |chains| && 0 <= j < |chains[b]| ::
          chains[b][j] in s && chains[b][j].hashNext == At(chains[b], j + 1))
  }

  lemma PartitionGrows(s: set<Item>, chains: seq<seq<Item>>, n: Item)
    requires Partition(s, chains) && n !in s
    ensures var b := Bucket(n.data, |chains|);
            && n !in chains[b]
            && Partition(s + {n}, chains[b := [n] + chains[b]])
  {
  }

  lemma PartitionShrinks(s: set<Item>, chains: seq<seq<Item>>, b: nat, j: nat)
    requires Partition(s, chains)
    requires b < |chains| && j < |chains[b]|
    ensures Partition(s - {chains[b][j]}, chains[b := Without(chains[b], j)])
  {
    var n := chains[b][j];
    assert n in chains[b];
    var shorter := Without(chains[b], j);
    assert forall m :: m in shorter <==> m in chains[b] && m != n;
    assert Distinct(shorter);
  }

  /** Put a node first in the chain of its bucket. */
  method ChainPush(table: array<Item?>, node: Item, ghost s: set<Item>, ghost chains: seq<seq<Item>>)
    returns (ghost pushed: seq<seq<Item>>)
    requires Partition(s, chains) && Threaded(s, chains, table)
    requires node !in s
    modifies table, node`hashNext
    ensures Partition(s + {node}, pushed) && Threaded(s + {node}, pushed, table)
  {
    var bucket := Bucket(node.data, table.Length);
    pushed := chains[bucket := [node] + chains[bucket]];
    PartitionGrows(s, chains, node);
    node.hashNext := table[bucket];
    table[bucket] := node;
    forall b, j | 0 <= b < |pushed| && 0 <= j < |pushed[b]|
      ensures pushed[b][j] in s + {node} && pushed[b][j].hashNext == At(pushed[b], j + 1)
    {
      if b == bucket && j > 0 {
        assert old(chains[b][j - 1].hashNext) == At(chains[b], j);
        assert pushed[b][j] == chains[b][j - 1];
      } else if b != bucket {
        assert old(chains[b][j].hashNext) == At(chains[b], j + 1);
        assert pushed[b] == chains[b];
      }
    }
  }

  /** Find a node in the chain of its bucket: its position and predecessor. */
  method ChainFind(table: array<Item?>, node: Item, ghost s: set<Item>, ghost chains: seq<seq<Item>>)
    returns (before: Item?, ghost j: nat)
    requires Partition(s, chains) && Threaded(s, chains, table)
    requires node in s
    ensures var chain := chains[Bucket(node.data, table.Length)];
            j < |chain| && chain[j] == node && before == At(chain, j - 1)
    ensures before != null ==> before in s
  {
    var bucket := Bucket(node.data, table.Length);
    ghost var chain := chains[bucket];
    assert node in chain;
    before := null;
    var cursor := table[bucket];
    j := 0;
    while cursor != node
      invariant j < |chain| && cursor == At(chain, j) && before == At(chain, j - 1)
      invariant node in chain[j..]
      invariant before != null ==> before in s
      decreases |chain| - j
    {
      assert chain[j..] == [chain[j]] + chain[j + 1..];
      before := cursor;
      assert chains[bucket][j].hashNext == At(chain, j + 1);
      cursor := cursor.hashNext;
      j := j + 1;
    }
  }

  /** Take a node out of the chain of its bucket. */
  method ChainDrop(table: array<Item?>, node: Item, ghost s: set<Item>, ghost chains: seq<seq<Item>>)
    returns (ghost dropped: seq<seq<Item>>)
    requires Partition(s, chains) && Threaded(s, chains, table)
    requires node in s
    modifies table, s`hashNext
    ensures Partition(s - {node}, dropped) && Threaded(s - {node}, dropped, table)
  {
    var before, j := ChainFind(table, node, s, chains);
    ghost var bucket := Bucket(node.data, table.Length);
    PartitionShrinks(s, chains, bucket, j);
    dropped := chains[bucket := Without(chains[bucket], j)];
    if before == null {
      ChainCutFirst(table, node, s, chains);
    } else {
      ChainCutAfter(table, node, before, j, s, chains);
    }
  }

  method ChainCutFirst(table: array<Item?>, node: Item, ghost s: set<Item>, ghost chains: seq<seq<Item>>)
    requires Partition(s, chains) && Threaded(s, chains, table)
    requires At(chains[Bucket(node.data, table.Length)], 0) == node
    modifies table
    ensures var bucket := Bucket(node.data, table.Length);
            Threaded(s - {node}, chains[bucket := Without(chains[bucket], 0)], table)
  {
    var bucket := Bucket(node.data, table.Length);
    ghost var dropped := chains[bucket := Without(chains[bucket], 0)];
    assert chains[bucket][0].hashNext == At(chains[bucket], 1);
    table[bucket] := node.hashNext;
    forall b, i | 0 <= b < |dropped| && 0 <= i < |dropped[b]|
      ensures dropped[b][i] in s - {node} && dropped[b][i].hashNext == At(dropped[b], i + 1)
    {
      var k := if b == bucket then i + 1 else i;
      assert dropped[b][i] == chains[b][k] && chains[b][k] in chains[b];
      assert chains[b][k].hashNext == At(chains[b], k + 1);
    }
  }

  method ChainCutAfter(table: array<Item?>, node: Item, before: Item, ghost j: nat,
                       ghost s: set<Item>, ghost chains: seq<seq<Item>>)
    requires Partition(s, chains) && Threaded(s, chains, table)
    requires var chain := chains[Bucket(node.data, table.Length)];
             0 < j < |chain| && chain[j] == node && before == chain[j - 1]
    modifies before`hashNext
    ensures var bucket := Bucket(node.data, table.Length);
            Threaded(s - {node}, chains[bucket := Without(chains[bucket], j)], table)
  {
    ghost var bucket := Bucket(node.data, table.Length);
    ghost var chain := chains[bucket];
    ghost var dropped := chains[bucket := Without(chain, j)];
    assert chains[bucket][j].hashNext == At(chain, j + 1);
    assert before in chain;
    before.hashNext := node.hashNext;
    forall b, i | 0 <= b < |dropped| && 0 <= i < |dropped[b]|
      ensures dropped[b][i] in s - {node} && dropped[b][i].hashNext == At(dropped[b], i + 1)
    {
      if b == bucket {
        WithoutAt(chain, j, i);
        var k := if i < j then i else i + 1;
        assert old(chains[b][k].hashNext) == At(chain, k + 1);
      } else {
        assert chains[b][i] in chains[b];
        assert old(chains[b][i].hashNext) == At(chains[b], i + 1);
      }
    }
  }

  lemma WithoutAt(c: seq<Item>, j: nat, i: nat)
    requires Distinct(c) && j < |c| && i < |c| - 1
    ensures Without(c, j)[i] == c[if i < j then i else i + 1] != c[j]
    ensures At(Without(c, j), i + 1) == (if i < j - 1 then At(c, i + 1) else At(c, i + 2))
    ensures j > 0 ==> (Without(c, j)[i] == c[j - 1] <==> i == j - 1)
  {
  }

  ghost predicate LinksOf(s: seq<Item>)
    reads s
  {
    && (forall i {:trigger s[i].next} | 0 <= i < |s| :: s[i].next == At(s, i + 1))
    && (forall i {:trigger s[i].prev} | 0 <= i < |s| :: s[i].prev == At(s, i - 1))
  }

  /** Redirecting the two neighbors of a gap to a node that points back at them
      links the longer sequence. */
  twostate lemma Spliced(s: seq<Item>, new p: nat, new n: Item)
    requires Distinct(s) && p < |s| && n !in s
    requires old(LinksOf(s))
    requires n.next == s[p] && n.prev == At(s, p - 1)
    requires forall i {:trigger s[i].next} | 0 <= i < |s| :: s[i].next == if i == p - 1 then n else old(s[i].next)
    requires forall i {:trigger s[i].prev} | 0 <= i < |s| :: s[i].prev == if i == p then n else old(s[i].prev)
    ensures Distinct(WithAt(s, p, n)) && LinksOf(WithAt(s, p, n))
  {
    var t := WithAt(s, p, n);
    forall i | 0 <= i < |t|
      ensures t[i].next == At(t, i + 1) && t[i].prev == At(t, i - 1)
    {
      if i != p {
        var k := if i < p then i else i - 1;
        assert t[i] == s[k];
        assert old(s[k].next) == At(s, k + 1) && old(s[k].prev) == At(s, k - 1);
      }
    }
  }

  /** The nodes around a removed one pass over it. */
  twostate lemma Cut(s: seq<Item>, new p: nat)
    requires Distinct(s) && p < |s|
    requires old(LinksOf(s))
    requires forall i {:trigger s[i].next} | 0 <= i < |s| :: s[i].next == if i == p - 1 then At(s, p + 1) else old(s[i].next)
    requires forall i {:trigger s[i].prev} | 0 <= i < |s| :: s[i].prev == if i == p + 1 then At(s, p - 1) else old(s[i].prev)
    ensures Distinct(Without(s, p)) && LinksOf(Without(s, p))
  {
    var t := Without(s, p);
    forall i | 0 <= i < |t|
      ensures t[i].next == At(t, i + 1) && t[i].prev == At(t, i - 1)
    {
      var k := if i < p then i else i + 1;
      assert t[i] == s[k];
      assert old(s[k].next) == At(s, k + 1) && old(s[k].prev) == At(s, k - 1);
    }
  }

  /** The loop of `eigrp_list_index_resize`: a table over the list's nodes. */
  method BuildTable(first: Item?, size: nat, ghost s: seq<Item>)
    returns (table: array<Item?>, ghost built: seq<seq<Item>>)
    requires size > 0
    requires Distinct(s) && LinksOf(s) && first == At(s, 0)
    modifies s`hashNext
    ensures fresh(table) && table.Length == size
    ensures Partition(Elements(s), built) && Threaded(Elements(s), built, table)
  {
    table := new Item?[size](_ => null);
    built := seq(size, _ => []);
    var node := first;
    ghost var i := 0;
    while node != null
      invariant i <= |s| && node == At(s, i)
      invariant table.Length == size && fresh(table)
      invariant Partition(Elements(s[..i]), built)
      invariant Threaded(Elements(s[..i]), built, table)
      invariant LinksOf(s)
      decreases |s| - i
    {
      assert s[..i + 1] == s[..i] + [node];
      assert Elements(s[..i + 1]) == Elements(s[..i]) + {node};
      built := ChainPush(table, node, Elements(s[..i]), built);
      assert s[i].next == At(s, i + 1);
      i := i + 1;
      node := node.next;
    }
    assert s[..i] == s;
  }

  ghost predicate Carries(s: seq<Item>, data: Data) {
    exists n :: n in s && n.data == data
  }

  method LinearLookup(first: Item?, data: Data, ghost s: seq<Item>) returns (node: Item?, ghost p: nat)
    requires LinksOf(s) && first == At(s, 0)
    ensures p <= |s| && node == At(s, p)
    ensures node != null ==> node.data == data
    ensures forall k | 0 <= k < p :: s[k].data != data
  {
    node, p := first, 0;
    while node != null && node.data != data
      invariant p <= |s| && node == At(s, p)
      invariant forall k | 0 <= k < p :: s[k].data != data
      decreases |s| - p
    {
      assert s[p].next == At(s, p + 1);
      node := node.next;
      p := p + 1;
    }
  }

  method FollowerOf(first: Item?, data: Data, cmp: (Data, Data) -> int, ghost s: seq<Item>)
    returns (node: Item?, ghost p: nat)
    requires LinksOf(s) && first == At(s, 0)
    ensures p <= |s| && node == At(s, p)
    ensures forall k | 0 <= k < p :: cmp(data, s[k].data) >= 0
    ensures node != null ==> cmp(data, node.data) < 0
  {
    node, p := first, 0;
    while node != null && cmp(data, node.data) >= 0
      invariant p <= |s| && node == At(s, p)
      invariant forall k | 0 <= k < p :: cmp(data, s[k].data) >= 0
      decreases |s| - p
    {
      assert s[p].next == At(s, p + 1);
      node := node.next;
      p := p + 1;
    }
  }

  method ChainLookup(table: array<Item?>, data: Data, ghost s: set<Item>, ghost chains: seq<seq<Item>>)
    returns (node: Item?)
    requires Partition(s, chains) && Threaded(s, chains, table)
    ensures node == null <==> forall n | n in s :: n.data != data
    ensures node != null ==> node in s && node.data == data
  {
    var bucket := Bucket(data, table.Length);
    ghost var chain := chains[bucket];
    node := table[bucket];
    ghost var j := 0;
    while node != null && node.data != data
      invariant j <= |chain| && node == At(chain, j)
      invariant forall k | 0 <= k < j :: chain[k].data != data
      decreases |chain| - j
    {
      assert chains[bucket][j].hashNext == At(chain, j + 1);
      node := node.hashNext;
      j := j + 1;
    }
    if node != null {
      assert node in chains[bucket];
    } else {
      assert forall n | n in s && n.data == data :: n in chain;
    }
  }

  class List {
    var head: Item?
    var tail: Item?
    var count: nat
    var buckets: array?<Item?>
    ghost var items: seq<Item>
    ghost var chains: seq<seq<Item>>

    constructor ()
      ensures Valid() && items == [] && buckets == null
    {
      head, tail, count, buckets := null, null, 0, null;
      items, chains := [], [];
    }

    ghost predicate Linked()
      reads this, items
    {
      && count == |items|
      && Distinct(items)
      && head == At(items, 0)
      && tail == At(items, |items| - 1)
      && LinksOf(items)
    }

    /** The index, when there is one, covers exactly the nodes of `s`. */
    ghost predicate Covers(s: set<Item>)
      reads this, s, buckets
    {
      buckets != null ==> Partition(s, chains) && Threaded(s, chains, buckets)
    }

    ghost predicate Valid()
      reads this, items, buckets
    {
      Linked() && Covers(Elements(items))
    }

    /** Changes of the list's links leave the index alone. */
    twostate lemma CoversStill(s: set<Item>)
      requires old(Covers(s))
      requires buckets == old(buckets) && chains == old(chains)
      requires buckets != null ==> forall b | 0 <= b < buckets.Length :: buckets[b] == old(buckets[b])
      requires forall n | n in s :: n.hashNext == old(n.hashNext)
      ensures Covers(s)
    {
      if buckets != null {
        forall b, j | 0 <= b < |chains| && 0 <= j < |chains[b]|
          ensures chains[b][j] in s && chains[b][j].hashNext == At(chains[b], j + 1)
        {
          assert old(chains[b][j].hashNext) == At(chains[b], j + 1);
        }
      }
    }

    /** Changes of the index leave the list's links alone. */
    twostate lemma LinkedStill()
      requires old(Linked())
      requires head == old(head) && tail == old(tail) && count == old(count) && items == old(items)
      requires forall i {:trigger items[i].next} | 0 <= i < |items| :: items[i].next == old(items[i].next)
      requires forall i {:trigger items[i].prev} | 0 <= i < |items| :: items[i].prev == old(items[i].prev)
      ensures Linked()
    {
    }

    // ----- the index -----

    /** `eigrp_list_index_resize`; `memory` is the outcome of `calloc`. */
    method IndexResize(size: nat, memory: bool) returns (ok: bool)
      requires Linked() && size > 0
      modifies this`buckets, this`chains, items`hashNext
      ensures Linked() && ok == memory
      ensures ok ==> buckets != null && fresh(buckets) && buckets.Length == size && Covers(Elements(items))
      ensures !ok ==> buckets == old(buckets) && chains == old(chains)
      ensures !ok ==> forall n | n in items :: n.hashNext == old(n.hashNext)
    {
      if !memory {
        return false;
      }
      var table, built := BuildTable(head, size, items);
      buckets, chains := table, built;
      return true;
    }

    method IndexEnable(memory: bool) returns (ok: bool)
      requires Valid()
      modifies this`buckets, this`chains, items`hashNext
      ensures Valid()
      ensures ok == (buckets != null) == (old(buckets) != null || memory)
      ensures buckets == old(buckets) || fresh(buckets)
    {
      if buckets != null {
        return true;
      }
      ok := IndexResize(INITIAL_BUCKETS, memory);
    }

    /** `eigrp_list_index_add` of a node just linked: doubling the table when it
        is loaded twice over re-indexes every node instead. */
    method IndexAdd(node: Item, memory: bool)
      requires Linked() && node in items
      requires Covers(Elements(items) - {node})
      modifies this`buckets, this`chains, items`hashNext, buckets
      ensures Valid()
      ensures (buckets == null) == (old(buckets) == null)
      ensures buckets == old(buckets) || fresh(buckets)
    {
      if buckets == null {
        return;
      }
      if count >= buckets.Length * 2 && buckets.Length <= SIZE_MAX / 2 {
        var ok := IndexResize(buckets.Length * 2, memory);
        if ok {
          return;
        }
      }
      IndexPush(node);
    }

    method IndexPush(node: Item)
      requires Linked() && node in items && buckets != null
      requires Covers(Elements(items) - {node})
      modifies this`chains, node`hashNext, buckets
      ensures Valid()
    {
      assert Elements(items) - {node} + {node} == Elements(items);
      chains := ChainPush(buckets, node, Elements(items) - {node}, chains);
      LinkedStill();
    }

    method IndexRemove(node: Item)
      requires Valid() && node in items
      modifies this`chains, items`hashNext, buckets
      ensures Linked() && Covers(Elements(items) - {node})
    {
      if buckets != null {
        chains := ChainDrop(buckets, node, Elements(items), chains);
        LinkedStill();
      }
    }

    // ----- the links -----

    method LinkTail(node: Item)
      requires Linked() && node !in items
      requires node.next == null
      modifies this`head, this`tail, this`count, this`items, items`next, node`prev
      ensures Linked() && items == old(items) + [node]
    {
      node.prev := tail;
      if tail != null {
        assert tail == items[|items| - 1];
        tail.next := node;
      } else {
        head := node;
      }
      tail := node;
      count := count + 1;
      items := items + [node];
    }

    method LinkBefore(node: Item, follower: Item, ghost p: nat)
      requires Linked() && node !in items
      requires p < |items| && items[p] == follower
      modifies this`head, this`tail, this`count, this`items, items`next, items`prev, node`next, node`prev
      ensures Linked() && items == WithAt(old(items), p, node)
    {
      var before := follower.prev;
      assert items[p].prev == At(items, p - 1);
      node.next := follower;
      node.prev := before;
      if before != null {
        before.next := node;
      } else {
        head := node;
      }
      follower.prev := node;
      count := count + 1;
      Spliced(items, p, node);
      items := WithAt(items, p, node);
    }

    /** The pointer surgery of `eigrp_list_remove`. */
    method Unlink(node: Item, ghost p: nat)
      requires Linked() && p < |items| && items[p] == node
      modifies this`head, this`tail, this`count, this`items, items`next, items`prev
      ensures Linked() && items == Without(old(items), p)
    {
      assert items[p].prev == At(items, p - 1) && items[p].next == At(items, p + 1);
      if node.prev != null {
        node.prev.next := node.next;
      } else {
        head := node.next;
      }
      if node.next != null {
        node.next.prev := node.prev;
      } else {
        tail := node.prev;
      }
      count := count - 1;
      Cut(items, p);
      items := Without(items, p);
    }

    // ----- the operations -----

    /** `eigrp_list_add`; `room` and `memory` are the outcomes of allocating the
        node and, if it comes to that, a larger table. */
    method Add(data: Data, room: bool, memory: bool) returns (node: Item?)
      requires Valid()
      modifies this, items, buckets
      ensures Valid() && (node != null <==> room)
      ensures node == null ==> items == old(items) && buckets == old(buckets)
      ensures node != null ==> fresh(node) && node.data == data && items == old(items) + [node]
      ensures (buckets == null) == (old(buckets) == null) && (buckets == old(buckets) || fresh(buckets))
    {
      if !room {
        return null;
      }
      node := Append(data, memory);
    }

    method Append(data: Data, memory: bool) returns (node: Item)
      requires Valid()
      modifies this, items, buckets
      ensures Valid()
      ensures fresh(node) && node.data == data && items == old(items) + [node]
      ensures (buckets == null) == (old(buckets) == null) && (buckets == old(buckets) || fresh(buckets))
    {
      node := new Item(data);
      LinkTail(node);
      CoversStill(Elements(old(items)));
      assert Elements(items) - {node} == Elements(old(items));
      IndexAdd(node, memory);
    }

    method Remove(node: Item, ghost p: nat)
      requires Valid() && p < |items| && items[p] == node
      modifies this, items, buckets
      ensures Valid()
      ensures items == Without(old(items), p) && buckets == old(buckets)
    {
      IndexRemove(node);
      label indexed:
      Unlink(node, p);
      CoversStill@indexed(Elements(old(items)) - {node});
      assert Elements(items) == Elements(old(items)) - {node};
    }

    /** `eigrp_list_insert`: before the first node that must follow, or last on
        a list without a comparison. */
    method Insert(data: Data, cmp: Option<(Data, Data) -> int>, room: bool, memory: bool)
      returns (node: Item?, ghost p: nat)
      requires Valid()
      modifies this, items, buckets
      ensures Valid() && (node != null <==> room)
      ensures node == null ==> items == old(items) && buckets == old(buckets)
      ensures node != null ==> fresh(node) && node.data == data
      ensures node != null ==> p <= |old(items)| && items == WithAt(old(items), p, node)
      ensures node != null && cmp.None? ==> p == |old(items)|
      ensures node != null && cmp.Some? ==> forall k | 0 <= k < p :: cmp.value(data, old(items)[k].data) >= 0
      ensures node != null && cmp.Some? && p < |old(items)| ==> cmp.value(data, old(items)[p].data) < 0
      ensures (buckets == null) == (old(buckets) == null) && (buckets == old(buckets) || fresh(buckets))
    {
      var follower: Item? := null;
      p := |items|;
      if cmp.Some? {
        follower, p := FollowerOf(head, data, cmp.value, items);
      }
      if !room {
        return null, p;
      }
      if follower == null {
        node := Append(data, memory);
        assert WithAt(old(items), p, node) == items;
      } else {
        node := InsertBefore(data, follower, p, memory);
      }
    }

    method InsertBefore(data: Data, follower: Item, ghost p: nat, memory: bool) returns (node: Item)
      requires Valid() && p < |items| && items[p] == follower
      modifies this, items, buckets
      ensures Valid()
      ensures fresh(node) && node.data == data && items == WithAt(old(items), p, node)
      ensures (buckets == null) == (old(buckets) == null) && (buckets == old(buckets) || fresh(buckets))
    {
      node := new Item(data);
      LinkBefore(node, follower, p);
      CoversStill(Elements(old(items)));
      assert Elements(items) - {node} == Elements(old(items));
      IndexAdd(node, memory);
    }

    /** `eigrp_list_lookup`: with or without an index, a node carrying the data
        is found iff there is one; the linear scan finds the first. */
    method Lookup(data: Data) returns (node: Item?, ghost p: nat)
      requires Valid()
      ensures p <= |items| && node == At(items, p)
      ensures node == null <==> !Carries(items, data)
      ensures node != null ==> node.data == data
      ensures buckets == null ==> forall k | 0 <= k < p :: items[k].data != data
    {
      if buckets == null {
        node, p := LinearLookup(head, data, items);
        return;
      }
      node := ChainLookup(buckets, data, Elements(items), chains);
      if node == null {
        p := |items|;
      } else {
        p :| p < |items| && items[p] == node;
      }
    }

    /** `eigrp_list_delete_data`: exactly one occurrence goes, the order of the
        others stays. */
    method DeleteData(data: Data) returns (ghost p: nat)
      requires Valid()
      modifies this, items, buckets
      ensures Valid() && buckets == old(buckets)
      ensures !Carries(old(items), data) ==> items == old(items)
      ensures Carries(old(items), data) ==>
                p < |old(items)| && old(items)[p].data == data && items == Without(old(items), p)
      ensures Carries(old(items), data) && old(buckets) == null ==>
                forall k | 0 <= k < p :: old(items)[k].data != data
    {
      var node;
      node, p := Lookup(data);
      if node != null {
        Remove(node, p);
      }
    }

    /** The round-robin step of the packet writer: a served node goes last. */
    method MoveToTail(node: Item, ghost p: nat)
      requires Valid() && p < |items| && items[p] == node
      modifies this, items
      ensures Valid()
      ensures items == Without(old(items), p) + [node] && buckets == old(buckets)
    {
      if node == tail {
        assert p == |items| - 1;
        assert items == Without(items, p) + [node];
        return;
      }
      Unlink(node, p);
      assert node !in items;
      label unlinked:
      node.next := null;
      LinkedStill@unlinked();
      LinkTail(node);
      assert Elements(items) == Elements(old(items));
      CoversStill(Elements(items));
    }
  }

  // ----- sorted lists -----

  /** `cmp` is negative exactly for a strict weak order. */
  ghost predicate Consistent(cmp: (Data, Data) -> int) {
    && (forall a, b | cmp(a, b) < 0 :: cmp(b, a) >= 0)
    && (forall a, b, c | cmp(a, c) < 0 :: cmp(a, b) < 0 || cmp(b, c) < 0)
  }

  ghost predicate Sorted(s: seq<Item>, cmp: (Data, Data) -> int) {
    forall i, j | 0 <= i < j < |s| :: cmp(s[j].data, s[i].data) >= 0
  }

  lemma LaterFollow(s: seq<Item>, n: Item, p: nat, cmp: (Data, Data) -> int)
    requires Consistent(cmp) && Sorted(s, cmp)
    requires p < |s| ==> cmp(n.data, s[p].data) < 0
    ensures forall k | p <= k < |s| :: cmp(n.data, s[k].data) < 0
  {
    forall k | p <= k < |s| ensures cmp(n.data, s[k].data) < 0 {
      assert k > p ==> cmp(s[k].data, s[p].data) >= 0;
    }
  }

  /** What `Insert` promises of its position keeps a sorted list sorted, and the
      new node stands behind every node it ties with. */
  lemma InsertKeepsSorted(s: seq<Item>, n: Item, p: nat, cmp: (Data, Data) -> int)
    requires Consistent(cmp) && Sorted(s, cmp)
    requires p <= |s|
    requires forall k | 0 <= k < p :: cmp(n.data, s[k].data) >= 0
    requires p < |s| ==> cmp(n.data, s[p].data) < 0
    ensures Sorted(WithAt(s, p, n), cmp)
    ensures forall k | p <= k < |s| :: cmp(n.data, s[k].data) < 0
  {
    LaterFollow(s, n, p, cmp);
    var t := WithAt(s, p, n);
    forall i, j | 0 <= i < j < |t| ensures cmp(t[j].data, t[i].data) >= 0 {
      assert i != p ==> t[i] == s[if i < p then i else i - 1];
      assert j != p ==> t[j] == s[if j < p then j else j - 1];
    }
  }
}
