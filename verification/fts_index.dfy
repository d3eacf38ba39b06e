/** A content table and the full-text index that three triggers keep beside it. */
module FtsIndex {

  type Token = string

  /** The tokens of each indexed column (a NULL column has none), and everything not indexed. */
  datatype Row = Row(columns: seq<seq<Token>>, other: string)

  datatype Posting = Posting(token: Token, id: int, column: nat, position: nat)

  function RowPostings(id: int, row: Row): set<Posting> {
    set c: nat, i: nat | c < |row.columns| && i < |row.columns[c]| :: Posting(row.columns[c][i], id, c, i)
  }

  /** The postings of an index built from scratch. */
  function TablePostings(table: map<int, Row>): set<Posting> {
    set id, c: nat, i: nat | id in table && c < |table[id].columns| && i < |table[id].columns[c]| ::
      Posting(table[id].columns[c][i], id, c, i)
  }

  ghost predicate Agrees(table: map<int, Row>, index: multiset<Posting>) {
    index == multiset(TablePostings(table))
  }

  /** Ids of the rows that a query for one token reports. */
  function Search(index: multiset<Posting>, token: Token): set<int> {
    set p | p in index && p.token == token :: p.id
  }

  predicate Contains(row: Row, token: Token) {
    exists c :: 0 <= c < |row.columns| && token in row.columns[c]
  }

  lemma SearchIsExact(table: map<int, Row>, index: multiset<Posting>, token: Token)
    requires Agrees(table, index)
    ensures Search(index, token) == set id | id in table && Contains(table[id], token)
  {
    forall id | id in table && Contains(table[id], token) ensures id in Search(index, token) {
      var c :| 0 <= c < |table[id].columns| && token in table[id].columns[c];
      var i :| 0 <= i < |table[id].columns[c]| && table[id].columns[c][i] == token;
      assert Posting(token, id, c, i) in TablePostings(table);
    }
  }

  /** The index holds a posting of the token for the row iff the row is there and one of its columns
      contains the token. */
  lemma {:induction false} PostingMeans(table: map<int, Row>, index: multiset<Posting>, token: Token, id: int)
    requires Agrees(table, index)
    ensures (exists p :: p in index && p.token == token && p.id == id) <==>
            id in table && exists c: nat :: c < |table[id].columns| && token in table[id].columns[c]
    ensures id in Search(index, token) <==> exists p :: p in index && p.token == token && p.id == id
  {
    SearchIsExact(table, index, token);
    if id in table && exists c: nat :: c < |table[id].columns| && token in table[id].columns[c] {
      var c: nat :| c < |table[id].columns| && token in table[id].columns[c];
      var i :| 0 <= i < |table[id].columns[c]| && table[id].columns[c][i] == token;
      assert Posting(token, id, c, i) in TablePostings(table);
    }
  }

  lemma AddRow(table: map<int, Row>, id: int, row: Row)
    requires id !in table
    ensures multiset(TablePostings(table[id := row])) == multiset(TablePostings(table)) + multiset(RowPostings(id, row))
  {
    var all, old_, new_ := TablePostings(table[id := row]), TablePostings(table), RowPostings(id, row);
    var table' := table[id := row];
    forall p | p in old_ + new_ ensures p in all {
      assert p.id in table' && p.column < |table'[p.id].columns| && p.position < |table'[p.id].columns[p.column]|;
      assert p == Posting(table'[p.id].columns[p.column][p.position], p.id, p.column, p.position);
    }
    forall p | p in all ensures p in old_ + new_ {
      assert p == Posting(table'[p.id].columns[p.column][p.position], p.id, p.column, p.position);
    }
    assert all == old_ + new_;
    assert old_ !! new_;
  }

  /** An UPDATE moves the row to `newId` only if that id is its own or free. */
  predicate MayUpdate(table: map<int, Row>, id: int, newId: int) {
    id in table && (newId == id || newId !in table)
  }

  datatype Op = InsertRow(id: int, row: Row) | DeleteRow(id: int) | UpdateRow(id: int, newId: int, row: Row)

  function Effect(table: map<int, Row>, op: Op): map<int, Row> {
    match op
    case InsertRow(id, row) => if id in table then table else table[id := row]
    case DeleteRow(id) => table - {id}
    case UpdateRow(id, newId, row) => if MayUpdate(table, id, newId) then (table - {id})[newId := row] else table
  }

  function Effects(table: map<int, Row>, ops: seq<Op>): map<int, Row> {
    if ops == [] then table else Effect(Effects(table, ops[..|ops| - 1]), ops[|ops| - 1])
  }

  class IndexedTable {
    var table: map<int, Row>
    var index: multiset<Posting>

    ghost predicate Valid()
      reads this
    {
      Agrees(table, index)
    }

    constructor ()
      ensures Valid() && table == map[]
    {
      table, index := map[], multiset{};
    }

    method AfterInsert(id: int, row: Row)
      modifies this`index
      ensures index == old(index) + multiset(RowPostings(id, row))
    {
      index := index + multiset(RowPostings(id, row));
    }

    /** The trigger hands the index the old values, which tell it what to take out. */
    method AfterDelete(id: int, row: Row)
      modifies this`index
      ensures index == old(index) - multiset(RowPostings(id, row))
    {
      index := index - multiset(RowPostings(id, row));
    }

    method Apply(op: Op)
      requires Valid()
      modifies this
      ensures Valid() && table == Effect(old(table), op)
      ensures match op
              case InsertRow(id, row) => table == if id in old(table) then old(table) else old(table)[id := row]
              case DeleteRow(id) => table == old(table) - {id}
              case UpdateRow(id, newId, row) =>
                table == if id in old(table) && (newId == id || newId !in old(table))
                         then (old(table) - {id})[newId := row] else old(table)
    {
      match op {
        case InsertRow(id, row) =>
          if id !in table {
            AddRow(table, id, row);
            table := table[id := row];
            AfterInsert(id, row);
          }
        case DeleteRow(id) =>
          if id in table {
            RemoveRow(id);
          }
        case UpdateRow(id, newId, row) =>
          if MayUpdate(table, id, newId) {
            RemoveRow(id);
            AddRow(table, newId, row);
            table := table[newId := row];
            AfterInsert(newId, row);
          }
      }
    }

    method RemoveRow(id: int)
      requires Valid() && id in table
      modifies this
      ensures Valid() && table == old(table) - {id}
    {
      var row := table[id];
      AddRow(table - {id}, id, row);
      assert table == (table - {id})[id := row];
      table := table - {id};
      AfterDelete(id, row);
    }

    /** After any sequence of statements a search reports exactly the rows that contain the token. */
    method ApplyAll(ops: seq<Op>)
      requires Valid()
      modifies this
      ensures Valid() && table == Effects(old(table), ops)
      ensures forall token :: Search(index, token) == set id | id in table && Contains(table[id], token)
    {
      for n := 0 to |ops|
        invariant Valid() && table == Effects(old(table), ops[..n])
      {
        assert ops[..n + 1][..n] == ops[..n];
        Apply(ops[n]);
      }
      assert ops[..|ops|] == ops;
      forall token ensures Search(index, token) == set id | id in table && Contains(table[id], token) {
        SearchIsExact(table, index, token);
      }
    }
  }
}
