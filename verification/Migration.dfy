/**
 Copying a SQLite vault into PostgreSQL: table by table, each in one transaction,
 every row converted and inserted unless a row with one of its keys is there.
 */
module Migration {
  import opened Protocol

  datatype Value = Null | Number(n: int) | Text(s: string) | Blob(bytes: seq<nat>) | Flag(b: bool) | Instant(t: Time)

  type Row = seq<Value>

  datatype Column = Keep | ToBool | ToEpoch | ToEpochNull | ToTimeText | ToTimeTextNull

  /** Reading a timestamp is left to the argument. */
  function Convert(c: Column, v: Value, parse: string -> Option<Time>): Option<Value> {
    match c
    case Keep => Some(v)
    case ToBool => if v.Number? then Some(Flag(v.n != 0)) else None
    case ToEpoch => if v.Number? then Some(Instant(v.n * SECOND)) else None
    case ToEpochNull => if v.Null? then Some(Null) else if v.Number? then Some(Instant(v.n * SECOND)) else None
    case ToTimeText =>
      if v.Text? && parse(v.s).Some? then Some(Instant(parse(v.s).value)) else None
    case ToTimeTextNull =>
      if v.Null? then Some(Null)
      else if v.Text? && parse(v.s).Some? then Some(Instant(parse(v.s).value)) else None
  }

  /** What each conversion makes of a value, and which values it refuses. Null passes only where a column may be null. */
  lemma ConvertMeans(v: Value, parse: string -> Option<Time>)
    ensures Convert(Keep, v, parse) == Some(v)
    ensures Convert(ToBool, v, parse).Some? <==> v.Number?
    ensures v.Number? ==> Convert(ToBool, v, parse) == Some(Flag(!(v.n == 0)))
    ensures Convert(ToEpoch, v, parse).Some? <==> v.Number?
    ensures v.Number? ==> Convert(ToEpoch, v, parse) == Some(Instant(v.n * 1_000_000_000))
    ensures Convert(ToTimeText, v, parse).Some? <==> v.Text? && parse(v.s).Some?
    ensures v.Text? && parse(v.s).Some? ==> Convert(ToTimeText, v, parse) == Some(Instant(parse(v.s).value))
    ensures Convert(ToEpochNull, v, parse) == if v == Null then Some(Null) else Convert(ToEpoch, v, parse)
    ensures Convert(ToTimeTextNull, v, parse) == if v == Null then Some(Null) else Convert(ToTimeText, v, parse)
  {
  }

  /** The columns of a table, and its keys as lists of columns, the primary one first. */
  datatype Shape = Shape(columns: seq<Column>, keys: seq<seq<nat>>)
  {
    /** The keys name columns, and only such as are copied as they are. */
    predicate Sound() {
      && keys != []
      && forall k, i :: 0 <= k < |keys| && 0 <= i < |keys[k]| ==> keys[k][i] < |columns| && columns[keys[k][i]] == Keep
    }
  }

  /** The ten tables, in the order in which they are copied. */
  const TABLES: seq<Shape> := [
    Shape([Keep, Keep], [[0]]),
    Shape([Keep, Keep, Keep, Keep, ToTimeTextNull], [[0]]),
    Shape([Keep, Keep, Keep, Keep, Keep, Keep, Keep, Keep, ToBool, Keep, ToBool, ToBool, Keep], [[0]]),
    Shape([Keep, Keep, Keep, Keep, Keep, Keep, ToEpochNull], [[0], [2, 3]]),
    Shape([Keep, Keep, Keep, ToEpoch], [[0]]),
    Shape([Keep, ToTimeText, Keep, Keep, Keep, Keep, Keep, Keep, Keep], [[0]]),
    Shape([Keep, Keep, Keep, Keep], [[0, 1]]),
    Shape([Keep, Keep, Keep], [[0, 1]]),
    Shape([Keep, Keep, ToTimeText, Keep], [[0]]),
    Shape([Keep, Keep, Keep, Keep, ToEpoch, ToEpoch, ToTimeTextNull, ToTimeTextNull, Keep, Keep, Keep, Keep],
          [[0], [3]])]

  const AUDIT := 5
  const ITEM_VERSIONS := 8

  lemma TablesAreSound(t: nat)
    requires t < |TABLES|
    ensures TABLES[t].Sound()
  {
  }

  function ConvertRow(columns: seq<Column>, row: Row, parse: string -> Option<Time>): (r: Option<Row>)
    requires |row| == |columns|
    ensures r.Some? ==> |r.value| == |row|
    ensures r.Some? ==> forall i :: 0 <= i < |row| ==> Convert(columns[i], row[i], parse) == Some(r.value[i])
    ensures r.None? ==> exists i :: 0 <= i < |row| && Convert(columns[i], row[i], parse).None?
  {
    if row == [] then Some([])
    else
      var n := |row| - 1;
      match (ConvertRow(columns[..n], row[..n], parse), Convert(columns[n], row[n], parse))
      case (Some(front), Some(v)) => Some(front + [v])
      case (Some(_), None) => None
      case (None, _) => None
  }

  // ---- keys ----

  predicate Fits(shape: Shape, row: Row) {
    |row| == |shape.columns|
  }

  /** Whether two rows have the same values under a key; null is like nothing, itself included. */
  predicate SameKey(key: seq<nat>, a: Row, b: Row)
    requires forall i :: 0 <= i < |key| ==> key[i] < |a| && key[i] < |b|
  {
    forall i :: 0 <= i < |key| ==> a[key[i]] == b[key[i]] && !a[key[i]].Null?
  }

  predicate Clash(shape: Shape, a: Row, b: Row)
    requires shape.Sound() && Fits(shape, a) && Fits(shape, b)
  {
    exists k :: 0 <= k < |shape.keys| && SameKey(shape.keys[k], a, b)
  }

  /** Rows clash exactly when some key's columns are all there and equal; null equals nothing. */
  lemma ClashIff(shape: Shape, a: Row, b: Row)
    requires shape.Sound() && Fits(shape, a) && Fits(shape, b)
    ensures Clash(shape, a, b) <==>
            exists key :: key in shape.keys &&
                          forall c :: c in key ==> c < |a| && c < |b| && a[c] == b[c] && a[c] != Null
  {
    forall k: nat | k < |shape.keys|
      ensures SameKey(shape.keys[k], a, b) <==>
              forall c :: c in shape.keys[k] ==> c < |a| && c < |b| && a[c] == b[c] && a[c] != Null
    {
      var key := shape.keys[k];
      forall c | c in key
        ensures c < |a| && c < |b|
      {
        var i: nat :| i < |key| && key[i] == c;
      }
      assert forall i :: 0 <= i < |key| ==> key[i] in key;
    }
    if key :| key in shape.keys && (forall c :: c in key ==> c < |a| && c < |b| && a[c] == b[c] && a[c] != Null) {
      var k: nat :| k < |shape.keys| && shape.keys[k] == key;
      assert SameKey(shape.keys[k], a, b);
    }
    if Clash(shape, a, b) {
      var k: nat :| k < |shape.keys| && SameKey(shape.keys[k], a, b);
      assert shape.keys[k] in shape.keys;
    }
  }

  /** A row without a primary key is refused by the database. */
  predicate Keyed(shape: Shape, row: Row)
    requires shape.Sound() && Fits(shape, row)
  {
    SameKey(shape.keys[0], row, row)
  }

  predicate AllFit(shape: Shape, rows: seq<Row>) {
    forall i :: 0 <= i < |rows| ==> Fits(shape, rows[i])
  }

  predicate Taken(shape: Shape, target: seq<Row>, row: Row)
    requires shape.Sound() && AllFit(shape, target) && Fits(shape, row)
  {
    exists i :: 0 <= i < |target| && Clash(shape, target[i], row)
  }

  // ---- one table ----

  /** The rows of a table once every source row was offered to it, or nothing if one of them cannot be stored. */
  function Copied(shape: Shape, rows: seq<Row>, target: seq<Row>, parse: string -> Option<Time>): (r: Option<seq<Row>>)
    requires shape.Sound() && AllFit(shape, rows) && AllFit(shape, target)
    ensures r.Some? ==> AllFit(shape, r.value)
  {
    if rows == [] then Some(target)
    else
      var row := rows[|rows| - 1];
      match (Copied(shape, rows[..|rows| - 1], target, parse), ConvertRow(shape.columns, row, parse))
      case (Some(t), Some(converted)) =>
        if !Keyed(shape, converted) then None
        else if Taken(shape, t, converted) then Some(t)
        else Some(t + [converted])
      case (Some(_), None) => None
      case (None, _) => None
  }

  /** All source rows converted, in order. */
  function Converted(shape: Shape, rows: seq<Row>, parse: string -> Option<Time>): (r: Option<seq<Row>>)
    requires AllFit(shape, rows)
    ensures r.Some? ==> |r.value| == |rows| && AllFit(shape, r.value)
  {
    if rows == [] then Some([])
    else
      match (Converted(shape, rows[..|rows| - 1], parse), ConvertRow(shape.columns, rows[|rows| - 1], parse))
      case (Some(front), Some(row)) => Some(front + [row])
      case (Some(_), None) => None
      case (None, _) => None
  }

  /** Nothing that was in the table changes or goes away. */
  lemma {:induction false} CopyOnlyAdds(shape: Shape, rows: seq<Row>, target: seq<Row>, parse: string -> Option<Time>)
    requires shape.Sound() && AllFit(shape, rows) && AllFit(shape, target)
    ensures Copied(shape, rows, target, parse).Some? ==>
              target <= Copied(shape, rows, target, parse).value &&
              |Copied(shape, rows, target, parse).value| <= |target| + |rows|
  {
    if rows != [] {
      CopyOnlyAdds(shape, rows[..|rows| - 1], target, parse);
    }
  }

  /** The row converts, has a primary key, and clashes with some row of the table. */
  ghost predicate CoveredRow(shape: Shape, row: Row, target: seq<Row>, parse: string -> Option<Time>)
    requires shape.Sound() && Fits(shape, row) && AllFit(shape, target)
  {
    var c := ConvertRow(shape.columns, row, parse);
    c.Some? && Keyed(shape, c.value) && Taken(shape, target, c.value)
  }

  ghost predicate Covered(shape: Shape, rows: seq<Row>, target: seq<Row>, parse: string -> Option<Time>)
    requires shape.Sound() && AllFit(shape, rows) && AllFit(shape, target)
  {
    forall i :: 0 <= i < |rows| ==> CoveredRow(shape, rows[i], target, parse)
  }

  lemma TakenStays(shape: Shape, target: seq<Row>, more: seq<Row>, row: Row)
    requires shape.Sound() && AllFit(shape, target) && AllFit(shape, more) && Fits(shape, row)
    requires target <= more && Taken(shape, target, row)
    ensures Taken(shape, more, row)
  {
    var i: nat :| i < |target| && Clash(shape, target[i], row);
    assert more[i] == target[i];
  }

  lemma CoveredStays(shape: Shape, rows: seq<Row>, target: seq<Row>, more: seq<Row>, parse: string -> Option<Time>)
    requires shape.Sound() && AllFit(shape, rows) && AllFit(shape, target) && AllFit(shape, more) && target <= more
    requires Covered(shape, rows, target, parse)
    ensures Covered(shape, rows, more, parse)
  {
    hide ConvertRow, Keyed, Taken;
    forall i: nat | i < |rows|
      ensures CoveredRow(shape, rows[i], more, parse)
    {
      assert CoveredRow(shape, rows[i], target, parse);
      TakenStays(shape, target, more, ConvertRow(shape.columns, rows[i], parse).value);
    }
  }

  /** A row just offered is covered. */
  lemma OfferedIsCovered(shape: Shape, row: Row, target: seq<Row>, parse: string -> Option<Time>)
    requires shape.Sound() && Fits(shape, row) && AllFit(shape, target)
    requires ConvertRow(shape.columns, row, parse).Some? && Keyed(shape, ConvertRow(shape.columns, row, parse).value)
    ensures var c := ConvertRow(shape.columns, row, parse).value;
            CoveredRow(shape, row, if Taken(shape, target, c) then target else target + [c], parse)
  {
    hide ConvertRow;
    var c := ConvertRow(shape.columns, row, parse).value;
    if !Taken(shape, target, c) {
      assert SameKey(shape.keys[0], c, c);
      assert Clash(shape, (target + [c])[|target|], c);
    }
  }

  /** A table that was copied covers its source. */
  lemma {:induction false} CopyCovers(shape: Shape, rows: seq<Row>, target: seq<Row>, parse: string -> Option<Time>)
    requires shape.Sound() && AllFit(shape, rows) && AllFit(shape, target)
    requires Copied(shape, rows, target, parse).Some?
    ensures Covered(shape, rows, Copied(shape, rows, target, parse).value, parse)
  {
    hide ConvertRow, Keyed, Taken, CoveredRow;
    if rows != [] {
      var n := |rows| - 1;
      var front := rows[..n];
      CopyCovers(shape, front, target, parse);
      var before := Copied(shape, front, target, parse).value;
      OfferedIsCovered(shape, rows[n], before, parse);
      CoveredStays(shape, front, before, Copied(shape, rows, target, parse).value, parse);
      assert forall i: nat :: i < n ==> front[i] == rows[i];
    }
  }

  /**
   The row converts and holds all the keys of some row of an earlier source, wherever that stood and whatever
   else it said.
   */
  ghost predicate Known(shape: Shape, earlier: seq<Row>, row: Row, parse: string -> Option<Time>)
    requires shape.Sound() && AllFit(shape, earlier) && Fits(shape, row)
  {
    ConvertRow(shape.columns, row, parse).Some? && exists j :: 0 <= j < |earlier| && AllKeysSame(shape, earlier[j], row)
  }

  /** A source without its known rows, in order. */
  ghost function Additions(shape: Shape, earlier: seq<Row>, source: seq<Row>, parse: string -> Option<Time>)
    : (r: seq<Row>)
    requires shape.Sound() && AllFit(shape, earlier) && AllFit(shape, source)
    ensures AllFit(shape, r)
    ensures (forall i :: 0 <= i < |source| ==> Known(shape, earlier, source[i], parse)) ==> r == []
  {
    if source == [] then []
    else
      var n := |source| - 1;
      assert forall i :: 0 <= i < n ==> source[..n][i] == source[i];
      Additions(shape, earlier, source[..n], parse) +
      (if Known(shape, earlier, source[n], parse) then [] else [source[n]])
  }

  lemma LastIsSkipped(shape: Shape, source: seq<Row>, target: seq<Row>, parse: string -> Option<Time>)
    requires shape.Sound() && AllFit(shape, source) && AllFit(shape, target) && source != []
    requires CoveredRow(shape, source[|source| - 1], target, parse)
    ensures Copied(shape, source, target, parse) == Copied(shape, source[..|source| - 1], target, parse)
  {
    hide ConvertRow, Keyed, Taken;
    var front := source[..|source| - 1];
    if Copied(shape, front, target, parse).Some? {
      CopyOnlyAdds(shape, front, target, parse);
      StillCovered(shape, source[|source| - 1], target, Copied(shape, front, target, parse).value, parse);
    }
  }

  lemma SameThenSame(
    shape: Shape, a: seq<Row>, b: seq<Row>, row: Row, target: seq<Row>, parse: string -> Option<Time>)
    requires shape.Sound() && AllFit(shape, a) && AllFit(shape, b) && Fits(shape, row) && AllFit(shape, target)
    requires Copied(shape, a, target, parse) == Copied(shape, b, target, parse)
    ensures Copied(shape, a + [row], target, parse) == Copied(shape, b + [row], target, parse)
  {
    hide ConvertRow, Keyed, Taken;
    assert (a + [row])[..|a|] == a && (b + [row])[..|b|] == b;
  }

  /** Known rows are skipped wherever they come: the table grows by the additions alone. */
  lemma {:induction false} KnownRowsAreSkipped(
    shape: Shape, earlier: seq<Row>, source: seq<Row>, target: seq<Row>, parse: string -> Option<Time>)
    requires shape.Sound() && AllFit(shape, earlier) && AllFit(shape, source) && AllFit(shape, target)
    requires forall i :: 0 <= i < |source| && Known(shape, earlier, source[i], parse) ==>
               CoveredRow(shape, source[i], target, parse)
    ensures Copied(shape, source, target, parse) ==
            Copied(shape, Additions(shape, earlier, source, parse), target, parse)
  {
    hide ConvertRow, Keyed, Taken, Known, CoveredRow, Copied;
    if source != [] {
      var n := |source| - 1;
      var front, row := source[..n], source[n];
      assert forall i :: 0 <= i < n ==> front[i] == source[i];
      KnownRowsAreSkipped(shape, earlier, front, target, parse);
      if Known(shape, earlier, row, parse) {
        LastIsSkipped(shape, source, target, parse);
        assert Additions(shape, earlier, source, parse) == Additions(shape, earlier, front, parse);
      } else {
        SameThenSame(shape, front, Additions(shape, earlier, front, parse), row, target, parse);
        assert front + [row] == source;
      }
    }
  }

  lemma StillCovered(shape: Shape, row: Row, target: seq<Row>, more: seq<Row>, parse: string -> Option<Time>)
    requires shape.Sound() && Fits(shape, row) && AllFit(shape, target) && AllFit(shape, more) && target <= more
    requires CoveredRow(shape, row, target, parse)
    ensures var c := ConvertRow(shape.columns, row, parse);
            c.Some? && Keyed(shape, c.value) && Taken(shape, more, c.value)
  {
    hide ConvertRow, Keyed, Taken;
    TakenStays(shape, target, more, ConvertRow(shape.columns, row, parse).value);
  }

  /** Rows that hold the same keys clash with the same rows. */
  lemma SameKeysSameClashes(shape: Shape, a: Row, b: Row, target: seq<Row>, parse: string -> Option<Time>)
    requires shape.Sound() && Fits(shape, a) && Fits(shape, b) && AllFit(shape, target)
    requires AllKeysSame(shape, a, b) && ConvertRow(shape.columns, b, parse).Some?
    requires CoveredRow(shape, a, target, parse)
    ensures CoveredRow(shape, b, target, parse)
  {
    var x, y := ConvertRow(shape.columns, a, parse).value, ConvertRow(shape.columns, b, parse).value;
    forall k: nat, i: nat | k < |shape.keys| && i < |shape.keys[k]|
      ensures x[shape.keys[k][i]] == y[shape.keys[k][i]]
    {
      assert a[shape.keys[k][i]] == b[shape.keys[k][i]];
    }
    AgreeingClash(shape, x, y, target);
  }

  lemma AgreeingClash(shape: Shape, x: Row, y: Row, target: seq<Row>)
    requires shape.Sound() && Fits(shape, x) && Fits(shape, y) && AllFit(shape, target)
    requires AllKeysSame(shape, x, y) && Keyed(shape, x) && Taken(shape, target, x)
    ensures Keyed(shape, y) && Taken(shape, target, y)
  {
    var i: nat :| i < |target| && Clash(shape, target[i], x);
    var k: nat :| k < |shape.keys| && SameKey(shape.keys[k], target[i], x);
    assert SameKey(shape.keys[k], target[i], y);
    assert Clash(shape, target[i], y);
  }

  /**
   A second pass, over a source whose rows may have changed, moved or been joined by others, and a table that may
   have been written since so long as the copied rows' keys are still there: it adds what it would add for the new
   rows alone, and nothing when every row is known.
   */
  lemma RerunAddsOnlyNewRows(shape: Shape, rows: seq<Row>, source: seq<Row>, target: seq<Row>, later: seq<Row>,
                             parse: string -> Option<Time>)
    requires shape.Sound() && AllFit(shape, rows) && AllFit(shape, source) && AllFit(shape, target)
    requires AllFit(shape, later) && Copied(shape, rows, target, parse).Some?
    requires KeysRemain(shape, Copied(shape, rows, target, parse).value, later)
    ensures Copied(shape, source, later, parse) == Copied(shape, Additions(shape, rows, source, parse), later, parse)
    ensures (forall i :: 0 <= i < |source| ==> Known(shape, rows, source[i], parse)) ==>
              Copied(shape, source, later, parse) == Some(later)
  {
    hide ConvertRow, Keyed, Taken, CoveredRow, AllKeysSame, KeysRemain;
    CopyCovers(shape, rows, target, parse);
    CoverCarries(shape, rows, Copied(shape, rows, target, parse).value, later, parse);
    forall i: nat | i < |source| && Known(shape, rows, source[i], parse)
      ensures CoveredRow(shape, source[i], later, parse)
    {
      var j: nat :| j < |rows| && AllKeysSame(shape, rows[j], source[i]);
      SameKeysSameClashes(shape, rows[j], source[i], later, parse);
    }
    KnownRowsAreSkipped(shape, rows, source, later, parse);
  }

  lemma CoverCarries(shape: Shape, rows: seq<Row>, copied: seq<Row>, later: seq<Row>, parse: string -> Option<Time>)
    requires shape.Sound() && AllFit(shape, rows) && AllFit(shape, copied) && AllFit(shape, later)
    requires Covered(shape, rows, copied, parse) && KeysRemain(shape, copied, later)
    ensures Covered(shape, rows, later, parse)
  {
    hide ConvertRow, Keyed, KeysRemain;
    forall i: nat | i < |rows|
      ensures CoveredRow(shape, rows[i], later, parse)
    {
      assert CoveredRow(shape, rows[i], copied, parse);
      var c := ConvertRow(shape.columns, rows[i], parse).value;
      var j: nat :| j < |copied| && Clash(shape, copied[j], c);
      ClashCarries(shape, copied, later, j, c);
    }
  }

  /** Run again over the very same source and table, in any order of its rows, nothing is added. */
  lemma RerunAddsNothing(shape: Shape, rows: seq<Row>, again: seq<Row>, target: seq<Row>, parse: string -> Option<Time>)
    requires shape.Sound() && AllFit(shape, rows) && AllFit(shape, target) && Copied(shape, rows, target, parse).Some?
    requires forall row :: row in again ==> row in rows
    ensures AllFit(shape, again)
    ensures var t := Copied(shape, rows, target, parse).value; Copied(shape, again, t, parse) == Some(t)
  {
    hide ConvertRow, Keyed, Taken, CoveredRow;
    var t := Copied(shape, rows, target, parse).value;
    forall i: nat | i < |again|
      ensures Fits(shape, again[i]) && Known(shape, rows, again[i], parse)
    {
      assert again[i] in again;
      var j: nat :| j < |rows| && rows[j] == again[i];
      CopyCovers(shape, rows, target, parse);
      assert CoveredRow(shape, rows[j], t, parse);
      CoveredConverts(shape, rows[j], t, parse);
      assert AllKeysSame(shape, rows[j], again[i]);
    }
    forall i: nat | i < |t|
      ensures exists j :: 0 <= j < |t| && AllKeysSame(shape, t[i], t[j])
    {
      assert AllKeysSame(shape, t[i], t[i]);
    }
    RerunAddsOnlyNewRows(shape, rows, again, target, t, parse);
  }

  lemma CoveredConverts(shape: Shape, row: Row, target: seq<Row>, parse: string -> Option<Time>)
    requires shape.Sound() && Fits(shape, row) && AllFit(shape, target) && CoveredRow(shape, row, target, parse)
    ensures ConvertRow(shape.columns, row, parse).Some?
  {
  }

  /** Every row's keys are all still held by one row; its other columns may have changed. */
  ghost predicate KeysRemain(shape: Shape, before: seq<Row>, later: seq<Row>)
    requires shape.Sound() && AllFit(shape, before) && AllFit(shape, later)
  {
    forall i :: 0 <= i < |before| ==> exists j :: 0 <= j < |later| && AllKeysSame(shape, before[i], later[j])
  }

  predicate AllKeysSame(shape: Shape, a: Row, b: Row)
    requires shape.Sound() && Fits(shape, a) && Fits(shape, b)
  {
    forall k, i :: 0 <= k < |shape.keys| && 0 <= i < |shape.keys[k]| ==> a[shape.keys[k][i]] == b[shape.keys[k][i]]
  }

  lemma ClashCarries(shape: Shape, before: seq<Row>, later: seq<Row>, j: nat, row: Row)
    requires shape.Sound() && AllFit(shape, before) && AllFit(shape, later) && Fits(shape, row)
    requires KeysRemain(shape, before, later) && j < |before| && Clash(shape, before[j], row)
    ensures Taken(shape, later, row)
  {
    var m: nat :| m < |later| && AllKeysSame(shape, before[j], later[m]);
    var k: nat :| k < |shape.keys| && SameKey(shape.keys[k], before[j], row);
    assert SameKey(shape.keys[k], later[m], row);
    assert Clash(shape, later[m], row);
  }

  ghost predicate NoClashes(shape: Shape, rows: seq<Row>)
    requires shape.Sound() && AllFit(shape, rows)
  {
    forall i, j :: 0 <= i < j < |rows| ==> !Clash(shape, rows[i], rows[j])
  }

  /** Columns that are keys are copied as they are, so rows clash after conversion just when they did before. */
  lemma ConversionKeepsKeys(shape: Shape, a: Row, b: Row, parse: string -> Option<Time>)
    requires shape.Sound() && Fits(shape, a) && Fits(shape, b)
    requires ConvertRow(shape.columns, a, parse).Some? && ConvertRow(shape.columns, b, parse).Some?
    ensures Clash(shape, a, b) <==>
            Clash(shape, ConvertRow(shape.columns, a, parse).value, ConvertRow(shape.columns, b, parse).value)
  {
    var x, y := ConvertRow(shape.columns, a, parse).value, ConvertRow(shape.columns, b, parse).value;
    forall k: nat | k < |shape.keys|
      ensures SameKey(shape.keys[k], a, b) <==> SameKey(shape.keys[k], x, y)
    {
      assert forall i :: 0 <= i < |shape.keys[k]| ==>
          x[shape.keys[k][i]] == a[shape.keys[k][i]] && y[shape.keys[k][i]] == b[shape.keys[k][i]];
    }
  }

  /** Into an empty table the copy is the whole converted source, in order, whenever the source obeys its own keys. */
  lemma {:induction false} CopyIntoEmpty(shape: Shape, rows: seq<Row>, parse: string -> Option<Time>)
    requires shape.Sound() && AllFit(shape, rows) && NoClashes(shape, rows)
    requires Copied(shape, rows, [], parse).Some?
    ensures Copied(shape, rows, [], parse) == Converted(shape, rows, parse)
  {
    hide ConvertRow, Keyed, Taken, Clash;
    if rows != [] {
      var n := |rows| - 1;
      var front := rows[..n];
      assert forall i :: 0 <= i < n ==> front[i] == rows[i];
      CopyIntoEmpty(shape, front, parse);
      NewcomerIsFree(shape, rows, parse);
    }
  }

  lemma {:induction false} ConvertedRows(shape: Shape, rows: seq<Row>, parse: string -> Option<Time>)
    requires AllFit(shape, rows)
    ensures Converted(shape, rows, parse).Some? ==>
              forall i :: 0 <= i < |rows| ==>
                ConvertRow(shape.columns, rows[i], parse) == Some(Converted(shape, rows, parse).value[i])
  {
    hide ConvertRow;
    if rows != [] {
      var front := rows[..|rows| - 1];
      assert forall i :: 0 <= i < |front| ==> front[i] == rows[i];
      ConvertedRows(shape, front, parse);
    }
  }

  lemma NewcomerIsFree(shape: Shape, rows: seq<Row>, parse: string -> Option<Time>)
    requires shape.Sound() && AllFit(shape, rows) && NoClashes(shape, rows) && rows != []
    requires Converted(shape, rows[..|rows| - 1], parse).Some?
    requires ConvertRow(shape.columns, rows[|rows| - 1], parse).Some?
    ensures !Taken(shape, Converted(shape, rows[..|rows| - 1], parse).value,
                   ConvertRow(shape.columns, rows[|rows| - 1], parse).value)
  {
    hide ConvertRow, Clash, Converted;
    var n := |rows| - 1;
    var before := Converted(shape, rows[..n], parse).value;
    ConvertedRows(shape, rows[..n], parse);
    forall i: nat | i < n
      ensures !Clash(shape, before[i], ConvertRow(shape.columns, rows[n], parse).value)
    {
      assert rows[..n][i] == rows[i];
      ConversionKeepsKeys(shape, rows[i], rows[n], parse);
    }
  }

  /** And only then: as soon as two source rows share a key, the copy has fewer rows than the source. */
  lemma {:induction false} FullCopyMeansNoClashes(shape: Shape, rows: seq<Row>, parse: string -> Option<Time>)
    requires shape.Sound() && AllFit(shape, rows)
    requires Copied(shape, rows, [], parse).Some? && |Copied(shape, rows, [], parse).value| == |rows|
    ensures NoClashes(shape, rows)
  {
    hide ConvertRow, Keyed, Clash;
    if rows != [] {
      var n := |rows| - 1;
      var front := rows[..n];
      CopyOnlyAdds(shape, front, [], parse);
      FullCopyMeansNoClashes(shape, front, parse);
      CopyIntoEmpty(shape, front, parse);
      ConvertedRows(shape, front, parse);
      var before := Copied(shape, front, [], parse).value;
      var last := ConvertRow(shape.columns, rows[n], parse).value;
      forall i: nat, j: nat | i < j < |rows|
        ensures !Clash(shape, rows[i], rows[j])
      {
        assert front[i] == rows[i];
        if j == n {
          assert !Clash(shape, before[i], last);
          ConversionKeepsKeys(shape, rows[i], rows[n], parse);
        } else {
          assert front[j] == rows[j];
        }
      }
    }
  }

  /** The copy into an empty table is the converted source exactly when no two source rows share a key. */
  lemma EmptyCopyIsSourceIff(shape: Shape, rows: seq<Row>, parse: string -> Option<Time>)
    requires shape.Sound() && AllFit(shape, rows) && Copied(shape, rows, [], parse).Some?
    ensures Copied(shape, rows, [], parse) == Converted(shape, rows, parse) <==> NoClashes(shape, rows)
  {
    if NoClashes(shape, rows) {
      CopyIntoEmpty(shape, rows, parse);
    } else if Copied(shape, rows, [], parse) == Converted(shape, rows, parse) {
      FullCopyMeansNoClashes(shape, rows, parse);
    }
  }

  // ---- identity columns ----

  predicate Numbered(row: Row) {
    row != [] && row[0].Number?
  }

  function MaxId(rows: seq<Row>): (m: Option<int>)
    ensures m.None? <==> forall i :: 0 <= i < |rows| ==> !Numbered(rows[i])
    ensures m.Some? ==> forall i :: 0 <= i < |rows| && Numbered(rows[i]) ==> rows[i][0].n <= m.value
    ensures m.Some? ==> exists i :: 0 <= i < |rows| && Numbered(rows[i]) && rows[i][0].n == m.value
  {
    if rows == [] then None
    else
      var m := MaxId(rows[..|rows| - 1]);
      var row := rows[|rows| - 1];
      if !Numbered(row) then m
      else if m.None? || m.value < row[0].n then Some(row[0].n)
      else m
  }

  /** There are ids, and none a sequence could count past: all are below one. */
  ghost predicate BadId(rows: seq<Row>) {
    && (exists i :: 0 <= i < |rows| && Numbered(rows[i]))
    && forall i :: 0 <= i < |rows| && Numbered(rows[i]) ==> rows[i][0].n < 1
  }

  datatype Report = Report(read: nat, inserted: nat, skipped: nat)

  /** How the databases treat one table: at which row, if any, reading or inserting fails, and whether it commits. */
  datatype Luck = Luck(failsAt: Option<nat>, commits: bool)

  class Target {
    var tables: seq<seq<Row>>
    /** The next id each identity column hands out. */
    var next: map<nat, int>

    predicate Valid()
      reads this
    {
      |tables| == |TABLES| && forall t :: 0 <= t < |TABLES| ==> AllFit(TABLES[t], tables[t])
    }

    /** One table, in one transaction: either all of it is copied, and counted, or the table is as it was. */
    method MigrateOneTable(t: nat, rows: seq<Row>, parse: string -> Option<Time>, luck: Luck)
      returns (ok: bool, report: Report)
      requires Valid() && t < |TABLES| && TABLES[t].Sound() && AllFit(TABLES[t], rows)
      modifies `tables
      ensures Valid()
      ensures !ok ==> tables == old(tables)
      ensures ok ==>
                && Copied(TABLES[t], rows, old(tables)[t], parse).Some?
                && tables == old(tables)[t := Copied(TABLES[t], rows, old(tables)[t], parse).value]
                && report.read == |rows| == report.inserted + report.skipped
                && report.inserted == |tables[t]| - |old(tables)[t]|
      ensures !ok ==> luck.failsAt.Some? || !luck.commits || Copied(TABLES[t], rows, old(tables)[t], parse).None?
    {
      hide ConvertRow, Keyed, Taken;
      var shape := TABLES[t];
      var tx := tables[t];
      ghost var was := tables[t];
      report := Report(0, 0, 0);
      for i := 0 to |rows|
        invariant AllFit(shape, rows[..i]) && AllFit(shape, tx)
        invariant Copied(shape, rows[..i], was, parse) == Some(tx)
        invariant report.read == i == report.inserted + report.skipped
        invariant report.inserted == |tx| - |was|
      {
        ghost var front := rows[..i + 1];
        assert front[..|front| - 1] == rows[..i] && front[|front| - 1] == rows[i];
        if luck.failsAt == Some(i) {
          return false, report;
        }
        report := report.(read := report.read + 1);
        var converted := ConvertRow(shape.columns, rows[i], parse);
        if converted.None? || !Keyed(shape, converted.value) {
          StopsForGood(shape, rows, was, parse, i + 1);
          return false, report;
        }
        if Taken(shape, tx, converted.value) {
          report := report.(skipped := report.skipped + 1);
        } else {
          tx := tx + [converted.value];
          report := report.(inserted := report.inserted + 1);
        }
      }
      assert rows[..|rows|] == rows;
      if !luck.commits || luck.failsAt.Some? {
        return false, report;
      }
      tables := tables[t := tx];
      return true, report;
    }

    /** Sets the counter past the highest id there is, or back to one for an empty table. */
    method ResetSequence(t: nat) returns (ok: bool)
      requires Valid() && t < |TABLES|
      modifies `next
      ensures forall u :: u != t && u in old(next) ==> u in next && next[u] == old(next)[u]
      ensures ok ==> t in next && next[t] >= 1
      ensures ok ==> forall i :: 0 <= i < |tables[t]| && Numbered(tables[t][i]) ==> tables[t][i][0].n < next[t]
      ensures ok <==> !BadId(tables[t])
      ensures !ok ==> next == old(next)
    {
      var m := MaxId(tables[t]);
      if m.Some? && m.value < 1 {
        return false;
      }
      next := next[t := if m.Some? then m.value + 1 else 1];
      return true;
    }

    /** Table after table; the first that fails stops the migration, and those before it stay copied. */
    method Migrate(source: seq<seq<Row>>, parse: string -> Option<Time>, luck: nat -> Luck)
      returns (ok: bool, reports: seq<Report>)
      requires Valid() && |source| == |TABLES| && forall t :: 0 <= t < |TABLES| ==> AllFit(TABLES[t], source[t])
      modifies `tables, `next
      ensures Valid() && |reports| <= |TABLES|
      ensures forall t :: 0 <= t < |reports| ==>
                TABLES[t].Sound() &&
                Copied(TABLES[t], source[t], old(tables)[t], parse) == Some(tables[t]) &&
                reports[t].read == |source[t]| == reports[t].inserted + reports[t].skipped &&
                reports[t].inserted == |tables[t]| - |old(tables)[t]|
      ensures forall t :: |reports| <= t < |TABLES| ==> tables[t] == old(tables)[t]
      ensures ok ==> |reports| == |TABLES|
      ensures !ok && |reports| < |TABLES| ==>
                var t := |reports|;
                TABLES[t].Sound() &&
                (luck(t).failsAt.Some? || !luck(t).commits || Copied(TABLES[t], source[t], old(tables)[t], parse).None?)
      ensures !ok && |reports| == |TABLES| ==> BadId(tables[AUDIT]) || BadId(tables[ITEM_VERSIONS])
      ensures ok ==> forall t :: t == AUDIT || t == ITEM_VERSIONS ==>
                t in next && forall i :: 0 <= i < |tables[t]| && Numbered(tables[t][i]) ==> tables[t][i][0].n < next[t]
    {
      reports := [];
      for t := 0 to |TABLES|
        invariant Valid() && |reports| == t
        invariant forall u :: 0 <= u < t ==>
                    TABLES[u].Sound() &&
                    Copied(TABLES[u], source[u], old(tables)[u], parse) == Some(tables[u]) &&
                    reports[u].read == |source[u]| == reports[u].inserted + reports[u].skipped &&
                    reports[u].inserted == |tables[u]| - |old(tables)[u]|
        invariant forall u :: t <= u < |TABLES| ==> tables[u] == old(tables)[u]
      {
        TablesAreSound(t);
        var done, report := MigrateOneTable(t, source[t], parse, luck(t));
        if !done {
          return false, reports;
        }
        reports := reports + [report];
      }
      ok := ResetSequence(AUDIT);
      if ok {
        ok := ResetSequence(ITEM_VERSIONS);
      }
    }
  }

  lemma {:induction false} StopsForGood(
    shape: Shape, rows: seq<Row>, target: seq<Row>, parse: string -> Option<Time>, k: nat)
    requires shape.Sound() && AllFit(shape, rows) && AllFit(shape, target)
    requires k <= |rows| && Copied(shape, rows[..k], target, parse).None?
    ensures Copied(shape, rows, target, parse).None?
  {
    if k < |rows| {
      var front := rows[..|rows| - 1];
      assert front[..k] == rows[..k];
      StopsForGood(shape, front, target, parse, k);
    } else {
      assert rows[..k] == rows;
    }
  }
}
