/** One table of the relational store: rows keyed by an auto-incremented
    integer primary key. Each controller step is one atomic change of a
    table; transactions are not modelled beyond that. */
module Tables {

  class Table<T> {
    var rows: map<int, T>
    var nextId: int

    /** Every key was handed out by the auto-increment counter. */
    ghost predicate Valid()
      reads this
    {
      1 <= nextId && forall id :: id in rows ==> 1 <= id < nextId
    }

    constructor ()
      ensures Valid()
      ensures rows == map[] && nextId == 1
    {
      rows := map[];
      nextId := 1;
    }

    /** `Model.create`: the new row gets the next key, which no row had. */
    method Insert(row: T) returns (id: int)
      requires Valid()
      modifies this
      ensures Valid()
      ensures id == old(nextId) && id !in old(rows)
      ensures rows == old(rows)[id := row] && nextId == old(nextId) + 1
    {
      id := nextId;
      rows := rows[id := row];
      nextId := nextId + 1;
    }

    /** `instance.update`: rewrite one existing row. */
    method Put(id: int, row: T)
      requires Valid() && id in rows
      modifies this
      ensures Valid()
      ensures rows == old(rows)[id := row] && nextId == old(nextId)
    {
      rows := rows[id := row];
    }

    /** `instance.destroy`: remove one existing row. */
    method Delete(id: int)
      requires Valid() && id in rows
      modifies this
      ensures Valid()
      ensures rows == old(rows) - {id} && nextId == old(nextId)
    {
      rows := rows - {id};
    }
  }
}
