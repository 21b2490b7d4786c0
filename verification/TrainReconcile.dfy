/** Bringing the list of train nodes in line with the train database: nodes of trains that are gone
    are deleted in place, nodes of new trains are added. */
module TrainReconcile {

  import opened Wrappers
  import opened DriveModes

  /** A node stands for a train on the track: a kind of address, and the address. */
  datatype NodeId = NodeId(kind: AddressType, address: nat)

  /** A database entry, the node it names, and whether its drive mode has an implementation. */
  datatype Entry = Entry(mode: Mode, address: nat, node: NodeId, creatable: bool)

  /** Node and implementation follow from mode and address. */
  ghost predicate Honest(e: Entry) {
    && e.node == NodeId(AddressTypeOf(e.mode, e.address), e.address)
    && e.creatable == Implementation(e.mode, e.address).Some?
  }

  ghost predicate AllHonest(db: seq<Entry>) { db == [] || (Honest(db[0]) && AllHonest(db[1..])) }

  lemma {:induction false} HonestAt(db: seq<Entry>, i: nat)
    requires AllHonest(db) && i < |db|
    ensures Honest(db[i])
  {
    if i > 0 {
      HonestAt(db[1..], i - 1);
    }
  }

  /** A train node and the database index it was last seen at, -1 while it has none. */
  datatype Impl = Impl(node: NodeId, id: int)

  datatype Slot = Null | Train(impl: Impl)

  const WORD: nat := 0x1_0000_0000

  /** Unsigned increment and decrement. */
  function Up(i: nat): nat { (i + 1) % WORD }

  function Down(i: nat): nat { (i + WORD - 1) % WORD }

  lemma UpAfterDown(i: nat)
    requires i < WORD
    ensures Up(Down(i)) == i
  {
    if i > 0 {
      assert Down(i) == i - 1;
    }
  }

  predicate Known(db: seq<Entry>, node: NodeId) { exists k | 0 <= k < |db| :: db[k].node == node }

  predicate Creatable(db: seq<Entry>, node: NodeId) {
    exists k | 0 <= k < |db| :: db[k].node == node && db[k].creatable
  }

  /** The database index is the last one with the node. */
  predicate IsLast(db: seq<Entry>, node: NodeId, id: int) {
    0 <= id < |db| && db[id].node == node && forall k | id < k < |db| :: db[k].node != node
  }

  ghost predicate NoNulls(trains: seq<Slot>) { forall k | 0 <= k < |trains| :: trains[k].Train? }

  ghost predicate Distinct(trains: seq<Slot>)
    requires NoNulls(trains)
  {
    forall i, j | 0 <= i < j < |trains| :: trains[i].impl.node != trains[j].impl.node
  }

  ghost predicate Present(trains: seq<Slot>, node: NodeId)
    requires NoNulls(trains)
  {
    exists k | 0 <= k < |trains| :: trains[k].impl.node == node
  }

  ghost predicate Good(trains: seq<Slot>) { NoNulls(trains) && Distinct(trains) }

  /** The list without slot i, which the last slot takes over. */
  function SwapOut(trains: seq<Slot>, i: nat): (r: seq<Slot>)
    requires i < |trains|
    ensures |r| == |trains| - 1
  {
    var last := |trains| - 1;
    if i == last then trains[..last] else trains[i := trains[last]][..last]
  }

  /** A slot taken out leaves a good list with all the other nodes. */
  lemma SwapOutRemoves(trains: seq<Slot>, i: nat, node: NodeId)
    requires Good(trains) && i < |trains|
    ensures Good(SwapOut(trains, i))
    ensures Present(SwapOut(trains, i), node) <==> Present(trains, node) && node != trains[i].impl.node
  {
    var r, last := SwapOut(trains, i), |trains| - 1;
    assert forall k | 0 <= k < last :: r[k] == if k == i then trains[last] else trains[k];
    if Present(trains, node) && node != trains[i].impl.node {
      var k :| 0 <= k < |trains| && trains[k].impl.node == node;
      assert r[if k == last then i else k].impl.node == node;
    }
  }

  /** One more database entry. */
  lemma NextEntry(db: seq<Entry>, i: nat, node: NodeId)
    requires i < |db|
    ensures Known(db[..i + 1], node) <==> Known(db[..i], node) || db[i].node == node
    ensures Creatable(db[..i + 1], node) <==> Creatable(db[..i], node) || (db[i].node == node && db[i].creatable)
    ensures db[i].node == node ==> IsLast(db[..i + 1], node, i)
    ensures forall id | db[i].node != node && IsLast(db[..i], node, id) :: IsLast(db[..i + 1], node, id)
  {
    var before, after := db[..i], db[..i + 1];
    assert forall k | 0 <= k < i :: after[k] == before[k];
    if Known(before, node) {
      var k :| 0 <= k < i && before[k].node == node;
      assert after[k].node == node;
    }
    if Creatable(before, node) {
      var k :| 0 <= k < i && before[k].node == node && before[k].creatable;
      assert after[k].node == node;
    }
    assert after[i] == db[i];
  }

  /** The state of the creation loop before entry i, when it began with the nodes of `start`. */
  ghost predicate CreatedUpTo(db: seq<Entry>, i: nat, start: seq<Slot>, trains: seq<Slot>)
    requires i <= |db| && NoNulls(start)
  {
    && Good(trains)
    && (forall n: NodeId :: Present(trains, n) <==> Present(start, n) || Creatable(db[..i], n))
    && (forall k | 0 <= k < |trains| ::
          Known(db[..i], trains[k].impl.node) ==> IsLast(db[..i], trains[k].impl.node, trains[k].impl.id))
  }

  lemma SameNodes(a: seq<Slot>, b: seq<Slot>, node: NodeId)
    requires NoNulls(a) && NoNulls(b) && |a| == |b|
    requires forall k | 0 <= k < |a| :: a[k].impl.node == b[k].impl.node
    ensures Present(a, node) <==> Present(b, node)
  {
    if k :| 0 <= k < |a| && a[k].impl.node == node {
      assert b[k].impl.node == node;
    }
    if k :| 0 <= k < |b| && b[k].impl.node == node {
      assert a[k].impl.node == node;
    }
  }

  lemma Renumbered(db: seq<Entry>, i: nat, start: seq<Slot>, trains: seq<Slot>, index: nat, trains': seq<Slot>)
    requires i < |db| && NoNulls(start) && CreatedUpTo(db, i, start, trains)
    requires index < |trains| && trains[index].impl.node == db[i].node
    requires trains' == trains[index := Train(Impl(db[i].node, i))]
    ensures CreatedUpTo(db, i + 1, start, trains')
  {
    assert forall k | 0 <= k < |trains| :: trains'[k].Train? && trains'[k].impl.node == trains[k].impl.node;
    forall n: NodeId ensures Present(trains', n) <==> Present(start, n) || Creatable(db[..i + 1], n) {
      NextEntry(db, i, n);
      SameNodes(trains, trains', n);
    }
    forall k | 0 <= k < |trains'|
      ensures Known(db[..i + 1], trains'[k].impl.node) ==> IsLast(db[..i + 1], trains'[k].impl.node, trains'[k].impl.id)
    {
      NextEntry(db, i, trains'[k].impl.node);
      assert k != index ==> trains[k].impl.node != trains[index].impl.node;
    }
  }

  lemma OneMore(trains: seq<Slot>, impl: Impl, node: NodeId)
    requires NoNulls(trains)
    ensures NoNulls(trains + [Train(impl)])
    ensures Present(trains + [Train(impl)], node) <==> Present(trains, node) || node == impl.node
  {
    var more := trains + [Train(impl)];
    if k :| 0 <= k < |trains| && trains[k].impl.node == node {
      assert more[k].impl.node == node;
    }
    assert more[|trains|].impl == impl;
  }

  lemma Created(db: seq<Entry>, i: nat, start: seq<Slot>, trains: seq<Slot>, trains': seq<Slot>)
    requires i < |db| && NoNulls(start) && CreatedUpTo(db, i, start, trains) && !Present(trains, db[i].node)
    requires trains' == if db[i].creatable then trains + [Train(Impl(db[i].node, i))] else trains
    ensures CreatedUpTo(db, i + 1, start, trains')
  {
    assert forall k | 0 <= k < |trains| :: trains'[k] == trains[k] && trains[k].impl.node != db[i].node;
    forall n: NodeId ensures Present(trains', n) <==> Present(start, n) || Creatable(db[..i + 1], n) {
      NextEntry(db, i, n);
      if db[i].creatable {
        OneMore(trains, Impl(db[i].node, i), n);
      }
    }
    forall k | 0 <= k < |trains'|
      ensures Known(db[..i + 1], trains'[k].impl.node) ==> IsLast(db[..i + 1], trains'[k].impl.node, trains'[k].impl.id)
    {
      NextEntry(db, i, trains'[k].impl.node);
    }
  }

  lemma CreatedAll(db: seq<Entry>, start: seq<Slot>, trains: seq<Slot>)
    requires NoNulls(start) && CreatedUpTo(db, |db|, start, trains)
    requires forall k | 0 <= k < |start| :: Known(db, start[k].impl.node)
    ensures forall n: NodeId :: Present(trains, n) <==> Present(start, n) || Creatable(db, n)
    ensures forall k | 0 <= k < |trains| :: IsLast(db, trains[k].impl.node, trains[k].impl.id)
  {
    assert db[..|db|] == db;
    forall k | 0 <= k < |trains| ensures IsLast(db, trains[k].impl.node, trains[k].impl.id) {
      assert Present(trains, trains[k].impl.node);
      assert Present(start, trains[k].impl.node) || Creatable(db, trains[k].impl.node);
      assert Known(db, trains[k].impl.node);
    }
  }

  class AllTrainNodes {
    var trains: seq<Slot>
    var db: seq<Entry>

    constructor (db: seq<Entry>)
      ensures trains == [] && this.db == db
    {
      trains, this.db := [], db;
    }

    /** Is there an entry for the node?  The hint is looked at first. */
    method FindEntry(node: NodeId, hint: int) returns (found: bool)
      ensures found <==> Known(db, node)
    {
      if 0 <= hint < |db| && db[hint].node == node {
        return true;
      }
      for k := 0 to |db|
        invariant forall j | 0 <= j < k :: db[j].node != node
      {
        if db[k].node == node {
          return true;
        }
      }
      return false;
    }

    method FindNode(node: NodeId) returns (index: int)
      requires NoNulls(trains)
      ensures if index < 0 then !Present(trains, node)
              else index < |trains| && trains[index].impl.node == node
    {
      for k := 0 to |trains|
        invariant forall j | 0 <= j < k :: trains[j].impl.node != node
      {
        if trains[k].impl.node == node {
          return k;
        }
      }
      return -1;
    }

    /** Deletes the node at id; the last slot moves there, unless it is the one deleted. */
    method DeleteAt(id: nat) returns (moved: bool)
      requires id < |trains| && NoNulls(trains)
      modifies this`trains
      ensures trains == SwapOut(old(trains), id)
      ensures moved == (id < |old(trains)| - 1)
    {
      trains := trains[id := Null];
      var slot := trains[|trains| - 1];
      trains := trains[..|trains| - 1];
      moved := slot.Train?;
      if moved {
        trains := trains[id := slot];
      }
    }

    /** Deletes the nodes whose trains are gone. */
    method DeleteUnknown()
      requires Good(trains) && |trains| < WORD
      modifies this`trains
      ensures Good(trains) && |trains| <= |old(trains)|
      ensures forall n: NodeId :: Present(trains, n) <==> Present(old(trains), n) && Known(db, n)
    {
      var id: nat := 0;
      while id < |trains|
        invariant Good(trains) && |trains| <= |old(trains)|
        invariant forall k | 0 <= k < id && k < |trains| :: Known(db, trains[k].impl.node)
        invariant forall n: NodeId :: Known(db, n) ==> (Present(trains, n) <==> Present(old(trains), n))
        invariant forall n: NodeId :: Present(trains, n) ==> Present(old(trains), n)
        decreases |trains| - id
      {
        var impl := trains[id].impl;
        var known := FindEntry(impl.node, impl.id);
        if !known {
          ghost var before := trains;
          forall n: NodeId
            ensures Good(SwapOut(before, id))
            ensures Present(SwapOut(before, id), n) <==> Present(before, n) && n != impl.node
          {
            SwapOutRemoves(before, id, n);
          }
          var moved := DeleteAt(id);
          if moved {
            UpAfterDown(id);
            id := Down(id);
          }
        }
        id := Up(id);
      }
    }

    /** A new node for a train, if its drive mode has an implementation; it is the node that the
        database names. */
    method CreateImpl(id: nat, e: Entry)
      requires Honest(e)
      modifies this`trains
      ensures trains == if e.creatable then old(trains) + [Train(Impl(e.node, id))] else old(trains)
    {
      match Implementation(e.mode, e.address)
      case None =>
      case Some(kind) =>
        ImplementationMatches(e.mode, e.address);
        trains := trains + [Train(Impl(NodeId(kind, e.address), id))];
    }

    /** Gives every node its database index, and adds the nodes that are missing. */
    method CreateMissing()
      requires AllHonest(db) && Good(trains) && forall k | 0 <= k < |trains| :: Known(db, trains[k].impl.node)
      modifies this`trains
      ensures Good(trains)
      ensures forall n: NodeId :: Present(trains, n) <==> Present(old(trains), n) || Creatable(db, n)
      ensures forall k | 0 <= k < |trains| :: IsLast(db, trains[k].impl.node, trains[k].impl.id)
    {
      for id := 0 to |db|
        invariant CreatedUpTo(db, id, old(trains), trains)
      {
        ghost var before := trains;
        var index := FindNode(db[id].node);
        if index >= 0 {
          trains := trains[index := Train(trains[index].impl.(id := id))];
          Renumbered(db, id, old(trains), before, index, trains);
        } else {
          HonestAt(db, id);
          CreateImpl(id, db[id]);
          Created(db, id, old(trains), before, trains);
        }
      }
      CreatedAll(db, old(trains), trains);
    }

    /** Main result: afterwards no slot is empty, no node is there twice, the nodes are exactly the
        old ones that are still in the database and those that can be created for it, and each
        one's index is the last database entry for it. */
    method UpdateConfig()
      requires AllHonest(db) && Good(trains) && |trains| < WORD
      modifies this`trains
      ensures Good(trains)
      ensures forall n: NodeId :: Present(trains, n) <==> (Present(old(trains), n) && Known(db, n)) || Creatable(db, n)
      ensures forall k | 0 <= k < |trains| :: IsLast(db, trains[k].impl.node, trains[k].impl.id)
    {
      DeleteUnknown();
      CreateMissing();
    }
  }
}
