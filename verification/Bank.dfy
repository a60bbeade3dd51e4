/** The storage of one bank: for every column, a linked list of the rows that were written. */
module BankModel {
  import opened Dram

  class DataStruct {
    ghost const column: nat
    const row: nat
    var data: Burst
    const next: DataStruct?

    constructor (row: nat, data: Burst, next: DataStruct?, ghost column: nat)
      ensures this.row == row && this.data == data && this.next == next && this.column == column
    {
      this.row, this.data, this.next, this.column := row, data, next, column;
    }
  }

  /** The node at a place of a chain; null at its end. */
  ghost function NodeAt(chain: seq<DataStruct>, i: nat): DataStruct? {
    if i < |chain| then chain[i] else null
  }

  /** `chain` lists the nodes reachable from `head`; they belong to one column, and no row
      occurs in it twice. */
  ghost predicate IsChain(head: DataStruct?, chain: seq<DataStruct>, column: nat) {
    && head == NodeAt(chain, 0)
    && (forall i | 0 <= i < |chain| :: chain[i].column == column && chain[i].next == NodeAt(chain, i + 1))
    && (forall i, j | 0 <= i < j < |chain| :: chain[i].row != chain[j].row)
  }

  lemma LongerChain(head: DataStruct?, chain: seq<DataStruct>, column: nat, node: DataStruct)
    requires IsChain(head, chain, column)
    requires node.column == column && node.next == head
    requires forall i | 0 <= i < |chain| :: chain[i].row != node.row
    ensures IsChain(node, [node] + chain, column)
  {
    var longer := [node] + chain;
    forall i | 0 <= i < |longer|
      ensures longer[i].column == column && longer[i].next == NodeAt(longer, i + 1)
    {
      if i > 0 {
        assert longer[i] == chain[i - 1];
      }
    }
  }

  ghost function Entries(chain: seq<DataStruct>): (r: seq<(nat, Burst)>)
    reads chain
    ensures |r| == |chain|
  {
    seq(|chain|, i requires 0 <= i < |chain| reads chain => (chain[i].row, chain[i].data))
  }

  /** What a list of rows and data says about a row. */
  function Lookup(entries: seq<(nat, Burst)>, row: nat): Option<Burst> {
    if |entries| == 0 then None
    else if entries[0].0 == row then Some(entries[0].1)
    else Lookup(entries[1..], row)
  }

  lemma {:induction false} LookupFinds(entries: seq<(nat, Burst)>, row: nat, i: nat)
    requires i < |entries| && entries[i].0 == row
    requires forall j | 0 <= j < i :: entries[j].0 != row
    ensures Lookup(entries, row) == Some(entries[i].1)
  {
    if i > 0 {
      LookupFinds(entries[1..], row, i - 1);
    }
  }

  lemma {:induction false} LookupMisses(entries: seq<(nat, Burst)>, row: nat)
    requires forall j | 0 <= j < |entries| :: entries[j].0 != row
    ensures Lookup(entries, row).None?
  {
    if |entries| > 0 {
      LookupMisses(entries[1..], row);
    }
  }

  /** Overwriting the data of one entry changes what the list says about its row, only. */
  lemma {:induction false} LookupAfterStore(entries: seq<(nat, Burst)>, k: nat, data: Burst, row: nat)
    requires k < |entries|
    requires forall i, j | 0 <= i < j < |entries| :: entries[i].0 != entries[j].0
    ensures Lookup(entries[k := (entries[k].0, data)], row)
            == if row == entries[k].0 then Some(data) else Lookup(entries, row)
  {
    var after := entries[k := (entries[k].0, data)];
    if k > 0 {
      assert after[1..] == entries[1..][k - 1 := (entries[k].0, data)];
      LookupAfterStore(entries[1..], k - 1, data, row);
    } else {
      assert after[1..] == entries[1..];
    }
  }

  class Bank {
    const numCols: nat
    var rowEntries: seq<DataStruct?>
    ghost var chains: seq<seq<DataStruct>>
    ghost var nodes: set<DataStruct>

    /** Every column has its own chain. */
    ghost predicate Valid()
      reads this
    {
      && |rowEntries| == |chains| == numCols
      && (forall c | 0 <= c < numCols :: IsChain(rowEntries[c], chains[c], c))
      && (forall c, i | 0 <= c < numCols && 0 <= i < |chains[c]| :: chains[c][i] in nodes)
    }

    /** What was last written to a cell, if anything. */
    ghost function At(column: nat, row: nat): Option<Burst>
      requires Valid() && column < numCols
      reads this, nodes
    {
      Lookup(Entries(chains[column]), row)
    }

    constructor (numCols: nat)
      ensures Valid() && this.numCols == numCols && nodes == {}
      ensures forall c, r | 0 <= c < numCols :: At(c, r).None?
    {
      this.numCols := numCols;
      rowEntries := seq(numCols, _ => null);
      chains := seq(numCols, _ => []);
      nodes := {};
    }

    /** Walks the list from its head. */
    method SearchForRow(row: nat, column: nat) returns (found: DataStruct?, ghost place: nat)
      requires Valid() && column < numCols
      ensures found == null ==> forall i | 0 <= i < |chains[column]| :: chains[column][i].row != row
      ensures found != null ==>
                && place < |chains[column]| && found == chains[column][place] && found.row == row
    {
      found := rowEntries[column];
      place := 0;
      ghost var chain := chains[column];
      while found != null
        invariant 0 <= place <= |chain|
        invariant found == NodeAt(chain, place)
        invariant forall i | 0 <= i < place :: chain[i].row != row
        decreases |chain| - place
      {
        if found.row == row {
          return;
        }
        found := found.next;
        place := place + 1;
      }
    }

    /** The data of a read: what was written, or else what the packet's buffer held before. */
    method Read(packet: BusPacket) returns (data: Burst)
      requires Valid() && packet.column < numCols
      ensures data == match At(packet.column, packet.row) {
                        case Some(d) => d
                        case None => packet.data
                      }
    {
      var found, place := SearchForRow(packet.row, packet.column);
      if found == null {
        LookupMisses(Entries(chains[packet.column]), packet.row);
        data := packet.data;
      } else {
        LookupFinds(Entries(chains[packet.column]), packet.row, place);
        data := found.data;
      }
    }

    /** `ok` is false when the simulator would exit, for a column that does not exist. */
    method Write(packet: BusPacket) returns (ok: bool)
      requires Valid()
      modifies this, nodes
      ensures Valid() && fresh(nodes - old(nodes))
      ensures ok == (packet.column < numCols)
      ensures forall c, r | 0 <= c < numCols ::
                At(c, r) == if c == packet.column && r == packet.row then Some(packet.data)
                            else old(At(c, r))
    {
      if packet.column >= numCols {
        return false;
      }
      var found, place := SearchForRow(packet.row, packet.column);
      if found == null {
        Insert(packet);
      } else {
        Store(found, place, packet);
      }
      ok := true;
    }

    /** A new node at the head of the list. */
    method Insert(packet: BusPacket)
      requires Valid() && packet.column < numCols
      requires forall i | 0 <= i < |chains[packet.column]| :: chains[packet.column][i].row != packet.row
      modifies this
      ensures Valid() && fresh(nodes - old(nodes))
      ensures forall c, r | 0 <= c < numCols ::
                At(c, r) == if c == packet.column && r == packet.row then Some(packet.data)
                            else old(At(c, r))
    {
      var newRowNode := new DataStruct(packet.row, packet.data, rowEntries[packet.column], packet.column);
      LongerChain(rowEntries[packet.column], chains[packet.column], packet.column, newRowNode);
      rowEntries := rowEntries[packet.column := newRowNode];
      chains := chains[packet.column := [newRowNode] + chains[packet.column]];
      nodes := nodes + {newRowNode};
      forall c, r | 0 <= c < numCols
        ensures At(c, r) == if c == packet.column && r == packet.row then Some(packet.data)
                            else old(At(c, r))
      {
        if c == packet.column {
          assert Entries(chains[c])[1..] == old(Entries(chains[c]));
        } else {
          assert Entries(chains[c]) == old(Entries(chains[c]));
        }
      }
    }

    /** New data in the node that was found. */
    method Store(found: DataStruct, ghost place: nat, packet: BusPacket)
      requires Valid() && packet.column < numCols && place < |chains[packet.column]|
      requires found == chains[packet.column][place] && found.row == packet.row
      modifies found`data
      ensures Valid() && nodes == old(nodes)
      ensures forall c, r | 0 <= c < numCols ::
                At(c, r) == if c == packet.column && r == packet.row then Some(packet.data)
                            else old(At(c, r))
    {
      found.data := packet.data;
      forall c, r | 0 <= c < numCols
        ensures At(c, r) == if c == packet.column && r == packet.row then Some(packet.data)
                            else old(At(c, r))
      {
        if c == packet.column {
          assert Entries(chains[c]) == old(Entries(chains[c]))[place := (packet.row, packet.data)];
          LookupAfterStore(old(Entries(chains[c])), place, packet.data, r);
        } else {
          assert Entries(chains[c]) == old(Entries(chains[c]));
        }
      }
    }
  }
}
