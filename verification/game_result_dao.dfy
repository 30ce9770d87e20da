/** The match-history table: the stored row type and its conversions to
    and from the in-memory record, and the four queries the data-access
    interface declares, over a table kept as its rows in insertion order. */
module History {
  import opened GameData

  /** One row of `game_results`; `id` is the auto-generated primary key. */
  datatype GameResultEntity = GameResultEntity(
    id: int,
    dateTime: int,
    winner: string,
    difficulty: string,
    gameMode: string,
    isDraw: bool)

  /** `toGameResultEntity`: every field copied. */
  function ToGameResultEntity(g: GameResult): GameResultEntity
  {
    GameResultEntity(g.id, g.dateTime, g.winner, g.difficulty, g.gameMode, g.isDraw)
  }

  /** `toGameResult`: every field copied, so converting back gives the row. */
  function ToGameResult(e: GameResultEntity): (g: GameResult)
    ensures ToGameResultEntity(g) == e
  {
    GameResult(e.id, e.dateTime, e.winner, e.difficulty, e.gameMode, e.isDraw)
  }

  /** Converting a record to a row and back gives the record. */
  lemma RecordRoundTrip(g: GameResult)
    ensures ToGameResult(ToGameResultEntity(g)) == g
  {
  }

  // ---------------------------------------------------------------------
  // The table
  // ---------------------------------------------------------------------

  /** The rows in insertion order, and the next key AUTOINCREMENT would
      hand out (one more than the largest key ever used; deleting rows does
      not lower it). */
  datatype Table = Table(rows: seq<GameResultEntity>, nextId: int)

  const EmptyTable: Table := Table([], 1)

  predicate HasId(rows: seq<GameResultEntity>, id: int)
  {
    exists i :: 0 <= i < |rows| && rows[i].id == id
  }

  /** Keys are unique and below the next key to hand out. */
  predicate ValidTable(t: Table)
  {
    && (forall i, j :: 0 <= i < j < |t.rows| ==> t.rows[i].id != t.rows[j].id)
    && (forall i :: 0 <= i < |t.rows| ==> t.rows[i].id < t.nextId)
  }

  datatype InsertOutcome = Inserted(table: Table, id: int) | KeyConflict

  /** `insertGameResult`: a row with key 0 gets the next key; a row with
      an explicit key keeps it, and the insert aborts if the key is taken. */
  function Insert(t: Table, e: GameResultEntity): (r: InsertOutcome)
    ensures r.KeyConflict? <==> e.id != 0 && HasId(t.rows, e.id)
    ensures r.Inserted? ==> r.table.rows == t.rows + [e.(id := r.id)]
    ensures r.Inserted? && e.id == 0 ==> r.id == t.nextId
    ensures r.Inserted? && e.id != 0 ==> r.id == e.id
  {
    if e.id == 0 then
      Inserted(Table(t.rows + [e.(id := t.nextId)], t.nextId + 1), t.nextId)
    else if HasId(t.rows, e.id) then KeyConflict
    else
      Inserted(Table(t.rows + [e], if e.id >= t.nextId then e.id + 1 else t.nextId), e.id)
  }

  /** Every insert that does not abort keeps the keys unique. */
  lemma InsertKeepsTableValid(t: Table, e: GameResultEntity)
    requires ValidTable(t)
    ensures Insert(t, e).Inserted? ==> ValidTable(Insert(t, e).table)
  {
    var r := Insert(t, e);
    if r.Inserted? && e.id != 0 {
      assert forall i :: 0 <= i < |t.rows| ==> t.rows[i].id != e.id;
    }
  }

  /** The rows whose key differs from `id`, in their order. */
  function WithoutId(rows: seq<GameResultEntity>, id: int): seq<GameResultEntity>
  {
    if |rows| == 0 then []
    else (if rows[0].id == id then [] else [rows[0]]) + WithoutId(rows[1..], id)
  }

  /** Exactly the rows with another key survive. */
  lemma {:induction false} WithoutIdMembers(rows: seq<GameResultEntity>, id: int, x: GameResultEntity)
    ensures x in WithoutId(rows, id) <==> x in rows && x.id != id
  {
    if |rows| > 0 {
      WithoutIdMembers(rows[1..], id, x);
      assert rows == [rows[0]] + rows[1..];
    }
  }

  /** With unique keys, at most one row carries a given key, so deleting
      by key removes one row or none. */
  lemma {:induction false} WithoutIdCount(rows: seq<GameResultEntity>, id: int)
    requires forall i, j :: 0 <= i < j < |rows| ==> rows[i].id != rows[j].id
    ensures |WithoutId(rows, id)| == |rows| - (if HasId(rows, id) then 1 else 0)
  {
    if |rows| > 0 {
      var tail := rows[1..];
      WithoutIdCount(tail, id);
      if rows[0].id == id {
        forall i | 0 <= i < |tail|
          ensures tail[i].id != id
        {
          assert rows[i + 1].id != rows[0].id;
        }
      } else {
        if HasId(rows, id) {
          var i :| 0 <= i < |rows| && rows[i].id == id;
          assert i > 0 && tail[i - 1].id == id;
        }
        if HasId(tail, id) {
          var i :| 0 <= i < |tail| && tail[i].id == id;
          assert rows[i + 1].id == id;
        }
      }
    }
  }

  /** `deleteGameResult`: removes the row with the entity's key, if any. */
  function Delete(t: Table, e: GameResultEntity): Table
  {
    Table(WithoutId(t.rows, e.id), t.nextId)
  }

  /** Deleting removes exactly the row with that key and keeps every
      other row. */
  lemma DeleteRemovesKey(t: Table, e: GameResultEntity)
    requires ValidTable(t)
    ensures !HasId(Delete(t, e).rows, e.id)
    ensures forall x :: x in t.rows && x.id != e.id ==> x in Delete(t, e).rows
    ensures |Delete(t, e).rows| == |t.rows| - (if HasId(t.rows, e.id) then 1 else 0)
  {
    var r := Delete(t, e).rows;
    if HasId(r, e.id) {
      var i :| 0 <= i < |r| && r[i].id == e.id;
      WithoutIdMembers(t.rows, e.id, r[i]);
    }
    forall x | x in t.rows && x.id != e.id
      ensures x in r
    {
      WithoutIdMembers(t.rows, e.id, x);
    }
    WithoutIdCount(t.rows, e.id);
  }

  /** `deleteAllGameResults`: no rows remain; the key counter is kept, so
      every key handed out before stays below the next one and is never
      handed out again. */
  function DeleteAll(t: Table): (r: Table)
    ensures Listing(r) == [] && ValidTable(r)
    ensures ValidTable(t) ==> forall i :: 0 <= i < |t.rows| ==> t.rows[i].id < r.nextId
    ensures forall e: GameResultEntity :: e.id == 0 ==> Insert(r, e).Inserted? && Insert(r, e).id == t.nextId
  {
    Table([], t.nextId)
  }

  // ---------------------------------------------------------------------
  // The listing query, ORDER BY dateTime DESC
  // ---------------------------------------------------------------------

  predicate NewestFirst(l: seq<GameResultEntity>)
  {
    forall i, j :: 0 <= i < j < |l| ==> l[i].dateTime >= l[j].dateTime
  }

  /** Places x before the first row that is strictly older. */
  function InsertByDate(x: GameResultEntity, l: seq<GameResultEntity>): (r: seq<GameResultEntity>)
    requires NewestFirst(l)
    ensures NewestFirst(r)
    ensures |r| == |l| + 1 && (r[0] == x || (|l| > 0 && r[0] == l[0]))
    ensures multiset(r) == multiset(l) + multiset{x}
  {
    if |l| == 0 then [x]
    else if x.dateTime >= l[0].dateTime then [x] + l
    else
      var rest := InsertByDate(x, l[1..]);
      assert l[0].dateTime >= rest[0].dateTime;
      assert multiset(l) == multiset{l[0]} + multiset(l[1..]) by {
        assert l == [l[0]] + l[1..];
      }
      [l[0]] + rest
  }

  /** The rows sorted newest first; rows with equal times stay in the
      order this insertion sort gives them. */
  function SortByDate(l: seq<GameResultEntity>): (r: seq<GameResultEntity>)
    ensures NewestFirst(r)
    ensures multiset(r) == multiset(l)
  {
    if |l| == 0 then []
    else
      assert l == l[..|l| - 1] + [l[|l| - 1]];
      InsertByDate(l[|l| - 1], SortByDate(l[..|l| - 1]))
  }

  /** `getAllGameResults`: every row once, newest first. */
  function Listing(t: Table): (l: seq<GameResultEntity>)
    ensures NewestFirst(l)
    ensures multiset(l) == multiset(t.rows)
  {
    SortByDate(t.rows)
  }

  /** After inserting, the listing holds the old rows and the new one,
      still newest first. */
  lemma InsertIsListed(t: Table, e: GameResultEntity)
    requires Insert(t, e).Inserted?
    ensures multiset(Listing(Insert(t, e).table)) == multiset(Listing(t)) + multiset{e.(id := Insert(t, e).id)}
    ensures |Listing(Insert(t, e).table)| == |Listing(t)| + 1
  {
    var r := Insert(t, e);
    assert multiset(r.table.rows) == multiset(t.rows) + multiset{e.(id := r.id)};
    assert |Listing(t)| == |multiset(Listing(t))| == |t.rows|;
    assert |Listing(r.table)| == |multiset(Listing(r.table))| == |r.table.rows|;
  }

  /** A record saved with key 0 is always stored, under a fresh key, and
      reads back from the listing as the record with that key. */
  lemma SavedRecordReadsBack(t: Table, g: GameResult)
    requires ValidTable(t) && g.id == 0
    ensures Insert(t, ToGameResultEntity(g)).Inserted?
    ensures var r := Insert(t, ToGameResultEntity(g));
      exists i :: 0 <= i < |Listing(r.table)| && ToGameResult(Listing(r.table)[i]) == g.(id := t.nextId)
    ensures var r := Insert(t, ToGameResultEntity(g));
      !HasId(t.rows, r.id) && ValidTable(r.table)
  {
    var e := ToGameResultEntity(g);
    var r := Insert(t, e);
    InsertKeepsTableValid(t, e);
    var x := e.(id := t.nextId);
    assert r.table.rows[|t.rows|] == x;
    assert x in multiset(r.table.rows);
    var l := Listing(r.table);
    assert x in multiset(l);
    var i :| 0 <= i < |l| && l[i] == x;
    assert ToGameResult(x) == g.(id := t.nextId);
    forall j | 0 <= j < |t.rows|
      ensures t.rows[j].id != r.id
    {
    }
  }
}
