/** A database table with an auto-increment primary key, as every Django
    model of the store gets one: rows keyed by id, and the id that the next
    insert receives. Ids grow with every insert, so ascending id order is
    creation order. */
module Tables {

  datatype Table<T> = Table(rows: map<nat, T>, next: nat) {

    /** Every stored id was handed out before `next`. */
    ghost predicate Valid() {
      forall id | id in rows :: id < next
    }

    /** INSERT: the new row gets id `next`. */
    function Insert(v: T): (t: Table<T>)
      requires Valid()
      ensures t.Valid() && next !in rows
      ensures t.rows == rows[next := v] && t.next == next + 1
    {
      Table(rows[next := v], next + 1)
    }

    /** INSERT of several rows, one after the other, in the order given. */
    function InsertAll(vs: seq<T>): (t: Table<T>)
      requires Valid()
      ensures t.Valid() && t.next == next + |vs|
      decreases |vs|
    {
      if vs == [] then this
      else InsertAll(vs[..|vs| - 1]).Insert(vs[|vs| - 1])
    }

    /** DELETE ... WHERE id IN ids. */
    function Without(ids: set<nat>): (t: Table<T>)
      requires Valid()
      ensures t.Valid() && t.next == next
      ensures t.rows.Keys == rows.Keys - ids
      ensures forall id {:trigger t.rows[id]} | id in t.rows :: t.rows[id] == rows[id]
    {
      Table(rows - ids, next)
    }

    /** DELETE ... WHERE NOT keep(row). */
    function Where(keep: T -> bool): (t: Table<T>)
      requires Valid()
      ensures t.Valid() && t.next == next
      ensures forall id {:trigger id in t.rows} :: id in t.rows <==> id in rows && keep(rows[id])
      ensures forall id {:trigger t.rows[id]} | id in t.rows :: t.rows[id] == rows[id]
    {
      Table(map id | id in rows && keep(rows[id]) :: rows[id], next)
    }

    /** SELECT * WHERE keep(row) ORDER BY id. */
    function Select(keep: T -> bool): seq<T> {
      SelectBelow(rows, keep, next)
    }

    /** SELECT id WHERE keep(row) ORDER BY id. */
    function Ids(keep: T -> bool): (r: seq<nat>)
      ensures StrictlyIncreasing(r)
      ensures forall id :: id in r <==> id in rows && id < next && keep(rows[id])
    {
      IdsBelow(rows, keep, next)
    }

    /** SELECT id WHERE keep(row) ORDER BY id DESC: the newest row first. */
    function IdsNewestFirst(keep: T -> bool): (r: seq<nat>)
      ensures forall i, j | 0 <= i < j < |r| :: r[i] > r[j]
      ensures forall id :: id in r <==> id in rows && id < next && keep(rows[id])
    {
      var up := Ids(keep);
      var down := seq(|up|, i requires 0 <= i < |up| => up[|up| - 1 - i]);
      assert forall id :: id in down <==> id in up by {
        forall id ensures id in down <==> id in up {
          if id in up {
            var k :| 0 <= k < |up| && up[k] == id;
            assert down[|up| - 1 - k] == id;
          }
        }
      }
      down
    }
  }

  predicate StrictlyIncreasing(s: seq<nat>) {
    forall i, j | 0 <= i < j < |s| :: s[i] < s[j]
  }

  /** The rows with id below `n` that satisfy `keep`, in id order. */
  function SelectBelow<T>(rows: map<nat, T>, keep: T -> bool, n: nat): (r: seq<T>)
    ensures forall x | x in r :: keep(x)
    ensures |r| <= n
  {
    if n == 0 then []
    else SelectBelow(rows, keep, n - 1)
         + (if n - 1 in rows && keep(rows[n - 1]) then [rows[n - 1]] else [])
  }

  /** The ids below `n` of the rows that satisfy `keep`, ascending. */
  function IdsBelow<T>(rows: map<nat, T>, keep: T -> bool, n: nat): (r: seq<nat>)
    ensures StrictlyIncreasing(r)
    ensures forall id :: id in r <==> id in rows && id < n && keep(rows[id])
  {
    if n == 0 then []
    else
      var prefix := IdsBelow(rows, keep, n - 1);
      assert forall i | 0 <= i < |prefix| :: prefix[i] < n - 1 by {
        forall i | 0 <= i < |prefix| ensures prefix[i] < n - 1 {
          assert prefix[i] in prefix;
        }
      }
      prefix + (if n - 1 in rows && keep(rows[n - 1]) then [n - 1] else [])
  }

  /** Selecting is decided by the selected rows alone: two maps that hold
      the same rows satisfying `keep` below `n` select the same sequence. */
  lemma {:induction false} SelectFrame<T>(rows: map<nat, T>, rows': map<nat, T>, keep: T -> bool, n: nat)
    requires forall id | id in rows && id < n && keep(rows[id]) :: id in rows' && rows'[id] == rows[id]
    requires forall id | id in rows' && id < n && keep(rows'[id]) :: id in rows && rows[id] == rows'[id]
    ensures SelectBelow(rows, keep, n) == SelectBelow(rows', keep, n)
  {
    if n > 0 {
      SelectFrame(rows, rows', keep, n - 1);
    }
  }

  /** Inserting a row appends it to every selection it satisfies and leaves
      the others as they were. */
  lemma SelectInsert<T>(t: Table<T>, v: T, keep: T -> bool)
    requires t.Valid()
    ensures t.Insert(v).Select(keep) == t.Select(keep) + (if keep(v) then [v] else [])
  {
    SelectFrame(t.rows, t.rows[t.next := v], keep, t.next);
  }

  /** A selection that no row satisfies is empty. */
  lemma {:induction false} SelectNone<T>(rows: map<nat, T>, keep: T -> bool, n: nat)
    requires forall id | id in rows :: !keep(rows[id])
    ensures SelectBelow(rows, keep, n) == []
  {
    if n > 0 {
      SelectNone(rows, keep, n - 1);
    }
  }

  /** Restricting a table to rows that satisfy `stay` leaves every selection
      whose rows all stay unchanged. */
  lemma SelectWhere<T>(t: Table<T>, stay: T -> bool, keep: T -> bool)
    requires t.Valid()
    requires forall id | id in t.rows && keep(t.rows[id]) :: stay(t.rows[id])
    ensures t.Where(stay).Select(keep) == t.Select(keep)
  {
    SelectFrame(t.rows, t.Where(stay).rows, keep, t.next);
  }

  /** Inserting rows that all satisfy `keep` appends them, in order, to the
      selection. */
  lemma {:induction false} SelectInsertAll<T>(t: Table<T>, vs: seq<T>, keep: T -> bool)
    requires t.Valid()
    requires forall i | 0 <= i < |vs| :: keep(vs[i])
    ensures t.InsertAll(vs).Select(keep) == t.Select(keep) + vs
  {
    if vs != [] {
      var init := vs[..|vs| - 1];
      SelectInsertAll(t, init, keep);
      SelectInsert(t.InsertAll(init), vs[|vs| - 1], keep);
      assert init + [vs[|vs| - 1]] == vs;
    }
  }

  /** After inserting `vs`, the table holds its old rows unchanged and the
      rows of `vs` under the ids from the old `next` on, in order. */
  lemma {:induction false} InsertAllRows<T>(t: Table<T>, vs: seq<T>)
    requires t.Valid()
    ensures forall id {:trigger id in t.InsertAll(vs).rows} ::
              id in t.InsertAll(vs).rows <==> id in t.rows || t.next <= id < t.next + |vs|
    ensures forall id {:trigger t.InsertAll(vs).rows[id]} | id in t.rows :: t.InsertAll(vs).rows[id] == t.rows[id]
    ensures forall id {:trigger t.InsertAll(vs).rows[id]} | id in t.InsertAll(vs).rows && t.next <= id ::
              t.InsertAll(vs).rows[id] == vs[id - t.next]
  {
    if vs != [] {
      var init := vs[..|vs| - 1];
      InsertAllRows(t, init);
      var mid := t.InsertAll(init);
      var u := mid.Insert(vs[|vs| - 1]);
      assert t.InsertAll(vs) == u;
      assert u.rows == mid.rows[mid.next := vs[|vs| - 1]];
      forall id ensures id in u.rows <==> id in t.rows || t.next <= id < t.next + |vs| {
        assert id in u.rows <==> id in mid.rows || id == mid.next;
      }
      forall id | id in t.rows ensures u.rows[id] == t.rows[id] {
        assert u.rows[id] == mid.rows[id];
      }
      forall id | id in u.rows && t.next <= id ensures u.rows[id] == vs[id - t.next] {
        if id < t.next + |init| {
          assert u.rows[id] == t.InsertAll(init).rows[id] == init[id - t.next];
        }
      }
    }
  }

  /** Inserting one more row after a batch is inserting the longer batch. */
  lemma InsertAllSnoc<T>(t: Table<T>, vs: seq<T>, v: T)
    requires t.Valid()
    ensures t.InsertAll(vs + [v]) == t.InsertAll(vs).Insert(v)
  {
  }
}
