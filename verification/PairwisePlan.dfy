/** The pairwise covering array: horizontal growth, then optimal vertical growth, per column. */
module PairwisePlan {
  import opened Sets

  type Row = seq<int>

  /** Old column, its value, and the value of the new column. */
  datatype Triple = Triple(column: nat, value: int, added: int)

  /** States are -1 (string off) followed by the frets 0, 1, ... */
  predicate IsState(v: int, states: nat) {
    -1 <= v < states - 1
  }

  predicate IsRow(row: Row, columns: nat, states: nat) {
    |row| == columns && forall c :: 0 <= c < columns ==> IsState(row[c], states)
  }

  predicate AreRows(rows: seq<Row>, columns: nat, states: nat) {
    forall i :: 0 <= i < |rows| ==> IsRow(rows[i], columns, states)
  }

  predicate RowShows(row: Row, c: nat, a: int, d: nat, b: int) {
    c < |row| && d < |row| && row[c] == a && row[d] == b
  }

  ghost predicate Shown(rows: seq<Row>, c: nat, a: int, d: nat, b: int) {
    exists i :: 0 <= i < |rows| && RowShows(rows[i], c, a, d, b)
  }

  /** Every pair of columns shows every pair of states. */
  ghost predicate Covering(rows: seq<Row>, columns: nat, states: nat) {
    forall c: nat, a, d: nat, b :: c < d < columns && IsState(a, states) && IsState(b, states) ==>
      Shown(rows, c, a, d, b)
  }

  // ---------------------------------------------------------------- missing pairs per new value

  predicate IsMissing(t: Triple, columns: nat, states: nat) {
    t.column < columns && IsState(t.value, states) && IsState(t.added, states)
  }

  predicate AreMissing(missing: set<Triple>, columns: nat, states: nat) {
    forall t :: t in missing ==> IsMissing(t, columns, states)
  }

  function AllTriples(columns: nat, states: nat): (all: set<Triple>)
    ensures forall t :: t in all <==> IsMissing(t, columns, states)
  {
    set c: nat, a, x | 0 <= c < columns && -1 <= a < states - 1 && -1 <= x < states - 1 :: Triple(c, a, x)
  }

  /** The missing pairs of one old column with one new value. */
  function Cell(missing: set<Triple>, column: nat, x: int): set<Triple> {
    set t | t in missing && t.column == column && t.added == x
  }

  /** The largest cell of a new value over the first `columns` old columns. */
  function MaxCell(missing: set<Triple>, x: int, columns: nat): nat {
    if columns == 0 then 0
    else
      var rest, here := MaxCell(missing, x, columns - 1), |Cell(missing, columns - 1, x)|;
      if here > rest then here else rest
  }

  /** The sum of the largest cells over the first k new values. */
  function Need(missing: set<Triple>, columns: nat, k: nat): nat {
    if k == 0 then 0 else Need(missing, columns, k - 1) + MaxCell(missing, k - 2, columns)
  }

  // ---------------------------------------------------------------- lower bound

  /** How many rows carry x in the new column. */
  function CountRows(rows: seq<Row>, column: nat, x: int): nat {
    if rows == [] then 0
    else
      var last := rows[|rows| - 1];
      CountRows(rows[..|rows| - 1], column, x) + if column < |last| && last[column] == x then 1 else 0
  }

  /** Each row shows at most one pair of a cell, so a cell needs as many rows as it has pairs. */
  lemma {:induction false} CellNeedsRows(rows: seq<Row>, cell: set<Triple>, column: nat, newest: nat, x: int)
    requires forall t :: t in cell ==> t.column == column && t.added == x
    requires forall t :: t in cell ==> Shown(rows, column, t.value, newest, x)
    ensures |cell| <= CountRows(rows, newest, x)
    decreases |rows|
  {
    if rows == [] {
      assert cell == {};
    } else {
      var n := |rows| - 1;
      var last := rows[n];
      var here := if column < |last| && newest < |last| && last[newest] == x
                  then {Triple(column, last[column], x)} else {};
      var rest := cell - here;
      forall t | t in cell
        ensures t in here || Shown(rows[..n], column, t.value, newest, x)
      {
        var i :| 0 <= i < |rows| && RowShows(rows[i], column, t.value, newest, x);
        if i < n {
          assert rows[..n][i] == rows[i];
        }
      }
      CellNeedsRows(rows[..n], rest, column, newest, x);
      assert cell <= rest + here;
      SubsetSize(cell, rest + here);
    }
  }

  ghost predicate CoversMissing(rows: seq<Row>, missing: set<Triple>, newest: nat) {
    forall t :: t in missing ==> Shown(rows, t.column, t.value, newest, t.added)
  }

  lemma {:induction false} MaxCellNeedsRows(rows: seq<Row>, missing: set<Triple>, newest: nat, x: int, columns: nat)
    requires CoversMissing(rows, missing, newest)
    ensures MaxCell(missing, x, columns) <= CountRows(rows, newest, x)
    decreases columns
  {
    if columns > 0 {
      MaxCellNeedsRows(rows, missing, newest, x, columns - 1);
      CellNeedsRows(rows, Cell(missing, columns - 1, x), columns - 1, newest, x);
    }
  }

  /** The rows counted under the first k values. */
  function CountUpTo(rows: seq<Row>, column: nat, k: nat): nat {
    if k == 0 then 0 else CountUpTo(rows, column, k - 1) + CountRows(rows, column, k - 2)
  }

  lemma {:induction false} CountUpToNext(rows: seq<Row>, column: nat, k: nat)
    requires rows != []
    ensures var n := |rows| - 1; var last := rows[n];
      CountUpTo(rows, column, k) == CountUpTo(rows[..n], column, k)
        + if column < |last| && -1 <= last[column] < k - 1 then 1 else 0
    decreases k
  {
    if k > 0 {
      CountUpToNext(rows, column, k - 1);
    }
  }

  lemma {:induction false} CountUpToAtMostAll(rows: seq<Row>, column: nat, k: nat)
    ensures CountUpTo(rows, column, k) <= |rows|
    decreases |rows|
  {
    if rows == [] {
      CountNone(column, k);
    } else {
      CountUpToNext(rows, column, k);
      CountUpToAtMostAll(rows[..|rows| - 1], column, k);
    }
  }

  lemma {:induction false} CountNone(column: nat, k: nat)
    ensures CountUpTo([], column, k) == 0
    decreases k
  {
    if k > 0 {
      CountNone(column, k - 1);
    }
  }

  /** No set of rows that shows every missing pair is smaller than the sum of largest cells. */
  lemma {:induction false} NeedIsNecessary(rows: seq<Row>, missing: set<Triple>, newest: nat, columns: nat, k: nat)
    requires CoversMissing(rows, missing, newest)
    ensures Need(missing, columns, k) <= CountUpTo(rows, newest, k)
    decreases k
  {
    if k > 0 {
      NeedIsNecessary(rows, missing, newest, columns, k - 1);
      MaxCellNeedsRows(rows, missing, newest, k - 2, columns);
    }
  }

  lemma FewerRowsCannotCover(rows: seq<Row>, missing: set<Triple>, newest: nat, columns: nat, states: nat)
    requires CoversMissing(rows, missing, newest)
    ensures |rows| >= Need(missing, columns, states)
  {
    NeedIsNecessary(rows, missing, newest, columns, states);
    CountUpToAtMostAll(rows, newest, states);
  }

  // ---------------------------------------------------------------- upper bound

  function Fill(column: nat, x: int, k: nat): (s: set<Triple>)
    ensures forall t :: t in s <==> t.column == column && t.added == x && IsState(t.value, k)
    ensures |s| == k
  {
    if k == 0 then {}
    else
      var rest := Fill(column, x, k - 1);
      assert forall t :: t in rest + {Triple(column, k - 2, x)} <==>
        t.column == column && t.added == x && IsState(t.value, k);
      rest + {Triple(column, k - 2, x)}
  }

  lemma {:induction false} MaxCellAtMostStates(missing: set<Triple>, x: int, columns: nat, all: nat, states: nat)
    requires AreMissing(missing, all, states)
    ensures MaxCell(missing, x, columns) <= states
    decreases columns
  {
    if columns > 0 {
      MaxCellAtMostStates(missing, x, columns - 1, all, states);
      SubsetSize(Cell(missing, columns - 1, x), Fill(columns - 1, x, states));
    }
  }

  lemma {:induction false} NeedAtMost(missing: set<Triple>, columns: nat, all: nat, states: nat, k: nat)
    requires AreMissing(missing, all, states)
    ensures Need(missing, columns, k) <= k * states
    decreases k
  {
    if k > 0 {
      NeedAtMost(missing, columns, all, states, k - 1);
      MaxCellAtMostStates(missing, k - 2, columns, all, states);
      assert k * states == (k - 1) * states + states;
    }
  }

  // ---------------------------------------------------------------- vertical growth

  /** The pairs a full-length row shows with its new value. */
  function Shows(row: Row, columns: nat): (s: set<Triple>)
    requires |row| > columns
  {
    set c: nat | 0 <= c < columns :: Triple(c, row[c], row[columns])
  }

  /** Wherever the row's new value still misses pairs of a column, the row shows one of them. */
  predicate TakesOnePerColumn(row: Row, missing: set<Triple>, columns: nat) {
    && |row| > columns
    && forall c :: 0 <= c < columns && Cell(missing, c, row[columns]) != {} ==>
         Triple(c, row[c], row[columns]) in missing
  }

  lemma CellAfterRow(missing: set<Triple>, row: Row, columns: nat, c: nat, x: int)
    requires TakesOnePerColumn(row, missing, columns) && c < columns
    ensures var after := missing - Shows(row, columns);
      |Cell(after, c, x)| ==
        if x == row[columns] && |Cell(missing, c, x)| > 0 then |Cell(missing, c, x)| - 1
        else |Cell(missing, c, x)|
  {
    var after := missing - Shows(row, columns);
    var t := Triple(c, row[c], row[columns]);
    assert t in Shows(row, columns);
    if x == row[columns] {
      assert Cell(after, c, x) == Cell(missing, c, x) - {t};
      if Cell(missing, c, x) != {} {
        assert t in Cell(missing, c, x);
      }
    } else {
      assert Cell(after, c, x) == Cell(missing, c, x);
    }
  }

  lemma {:induction false} MaxCellAfterRow(missing: set<Triple>, row: Row, columns: nat, x: int, k: nat)
    requires TakesOnePerColumn(row, missing, columns) && k <= columns
    ensures var after := missing - Shows(row, columns);
      MaxCell(after, x, k) ==
        if x == row[columns] && MaxCell(missing, x, k) > 0 then MaxCell(missing, x, k) - 1
        else MaxCell(missing, x, k)
    decreases k
  {
    if k > 0 {
      MaxCellAfterRow(missing, row, columns, x, k - 1);
      CellAfterRow(missing, row, columns, k - 1, x);
    }
  }

  lemma {:induction false} MaxCellPositive(missing: set<Triple>, t: Triple, columns: nat)
    requires t in missing && t.column < columns
    ensures MaxCell(missing, t.added, columns) > 0
    decreases columns
  {
    if t.column == columns - 1 {
      assert t in Cell(missing, columns - 1, t.added);
    } else {
      MaxCellPositive(missing, t, columns - 1);
    }
  }

  /** One vertical row lowers the remaining need by exactly one. */
  lemma {:induction false} NeedAfterRow(missing: set<Triple>, row: Row, columns: nat, k: nat)
    requires TakesOnePerColumn(row, missing, columns) && row[columns] >= -1
    requires MaxCell(missing, row[columns], columns) > 0
    ensures Need(missing - Shows(row, columns), columns, k)
         == Need(missing, columns, k) - (if row[columns] < k - 1 then 1 else 0)
    decreases k
  {
    if k > 0 {
      NeedAfterRow(missing, row, columns, k - 1);
      MaxCellAfterRow(missing, row, columns, k - 2, columns);
    }
  }

  // ---------------------------------------------------------------- the builder

  /** The count of missing pairs that a new value would show in this row. */
  function Score(row: Row, missing: set<Triple>, columns: nat, x: int): nat
    requires |row| >= columns
  {
    |set c: nat | 0 <= c < columns && Triple(c, row[c], x) in missing|
  }

  /** The state that shows the most missing pairs; the smallest one among equals. */
  method PickValue(row: Row, missing: set<Triple>, columns: nat, states: nat) returns (best: int)
    requires |row| >= columns && states > 0
    ensures BestValue(row, missing, columns, states, best)
  {
    best := -1;
    for x := 0 to states - 1
      invariant -1 <= best < x || best == -1
      invariant forall y :: -1 <= y < x ==>
        Score(row, missing, columns, y) < Score(row, missing, columns, best)
        || (Score(row, missing, columns, y) == Score(row, missing, columns, best) && best <= y)
    {
      if Score(row, missing, columns, x) > Score(row, missing, columns, best) {
        best := x;
      }
    }
  }

  /** The smallest state whose pair with the new value is missing, or else the smallest state. */
  method PickMissing(missing: set<Triple>, column: nat, added: int, states: nat) returns (best: int)
    requires states > 0
    ensures IsState(best, states)
    ensures if exists v :: IsState(v, states) && Triple(column, v, added) in missing
      then Triple(column, best, added) in missing
        && forall v :: IsState(v, states) && Triple(column, v, added) in missing ==> best <= v
      else best == -1
  {
    best := -1;
    while best < states - 1 && Triple(column, best, added) !in missing
      invariant -1 <= best <= states - 1
      invariant forall v :: -1 <= v < best ==> Triple(column, v, added) !in missing
    {
      best := best + 1;
    }
    if best == states - 1 {
      best := -1;
    }
  }

  predicate Less(s: Triple, t: Triple) {
    s.column < t.column
    || (s.column == t.column && (s.value < t.value || (s.value == t.value && s.added < t.added)))
  }

  /** `min(uncovered)`: the lexicographically least missing pair. */
  method Least(missing: set<Triple>) returns (seed: Triple)
    requires missing != {}
    ensures seed in missing && forall t :: t in missing && t != seed ==> Less(seed, t)
  {
    seed :| seed in missing;
    var rest := missing - {seed};
    while rest != {}
      invariant rest < missing && seed in missing && seed !in rest
      invariant forall t :: t in missing && t !in rest && t != seed ==> Less(seed, t)
      decreases rest
    {
      var t :| t in rest;
      if Less(t, seed) {
        seed := t;
      }
      rest := rest - {t};
    }
  }

  /** The missing triples are exactly the pairs that no finished row shows. */
  ghost predicate Accounts(missing: set<Triple>, rows: seq<Row>, columns: nat, states: nat) {
    && AreMissing(missing, columns, states)
    && forall t :: IsMissing(t, columns, states) ==>
         (t in missing <==> !Shown(rows, t.column, t.value, columns, t.added))
  }

  lemma AccountsNext(missing: set<Triple>, rows: seq<Row>, row: Row, columns: nat, states: nat)
    requires Accounts(missing, rows, columns, states) && |row| == columns + 1
    ensures Accounts(missing - Shows(row, columns), rows + [row], columns, states)
  {
    forall t | IsMissing(t, columns, states)
      ensures t in missing - Shows(row, columns) <==> !Shown(rows + [row], t.column, t.value, columns, t.added)
    {
      ShownNext(rows, row, t.column, t.value, columns, t.added);
    }
  }

  lemma ShownNext(rows: seq<Row>, row: Row, c: nat, a: int, d: nat, b: int)
    ensures Shown(rows + [row], c, a, d, b) <==> Shown(rows, c, a, d, b) || RowShows(row, c, a, d, b)
  {
    var more := rows + [row];
    assert more[|rows|] == row && forall i :: 0 <= i < |rows| ==> more[i] == rows[i];
    if i :| 0 <= i < |rows| && RowShows(rows[i], c, a, d, b) {
      assert RowShows(more[i], c, a, d, b);
    }
    if RowShows(row, c, a, d, b) {
      assert RowShows(more[|rows|], c, a, d, b);
    }
  }

  lemma {:induction false} ShownTogether(rows: seq<Row>, extra: seq<Row>, c: nat, a: int, d: nat, b: int)
    requires Shown(rows + extra, c, a, d, b)
    ensures Shown(rows, c, a, d, b) || Shown(extra, c, a, d, b)
  {
    var i :| 0 <= i < |rows + extra| && RowShows((rows + extra)[i], c, a, d, b);
    if i < |rows| {
      assert RowShows(rows[i], c, a, d, b);
    } else {
      assert RowShows(extra[i - |rows|], c, a, d, b);
    }
  }

  /** No fewer additional rows than the need show every pair of an old with the new column. */
  lemma FewerRowsCannotComplete(
    missing: set<Triple>, rows: seq<Row>, extra: seq<Row>, columns: nat, states: nat)
    requires Accounts(missing, rows, columns, states) && Accounts({}, rows + extra, columns, states)
    ensures |extra| >= Need(missing, columns, states)
  {
    forall t | t in missing
      ensures Shown(extra, t.column, t.value, columns, t.added)
    {
      ShownTogether(rows, extra, t.column, t.value, columns, t.added);
    }
    FewerRowsCannotCover(extra, missing, columns, columns, states);
  }

  /** No state would show more of the missing pairs in this row, and no smaller one as many. */
  ghost predicate BestValue(row: Row, missing: set<Triple>, columns: nat, states: nat, best: int)
    requires |row| >= columns
  {
    IsState(best, states) &&
    forall x :: IsState(x, states) ==>
      Score(row, missing, columns, x) < Score(row, missing, columns, best)
      || (Score(row, missing, columns, x) == Score(row, missing, columns, best) && best <= x)
  }

  /** The score of a value is the number of missing pairs that the row would show with it. */
  lemma ScoreCounts(row: Row, missing: set<Triple>, columns: nat, x: int)
    requires |row| == columns
    ensures Score(row, missing, columns, x) == |Shows(row + [x], columns) * missing|
  {
    var counted := set c: nat | 0 <= c < columns && Triple(c, row[c], x) in missing;
    var longer := row + [x];
    var shown := Shows(longer, columns) * missing;
    assert longer[columns] == x && forall c :: 0 <= c < columns ==> longer[c] == row[c];
    forall t: Triple
      ensures t in shown <==> t.column in counted && t == Triple(t.column, row[t.column], x)
    {
    }
    SameSize(counted, shown, row, x);
  }

  lemma {:induction false} SameSize(columns: set<nat>, triples: set<Triple>, row: Row, x: int)
    requires forall c :: c in columns ==> c < |row|
    requires forall t: Triple :: t in triples <==> t.column in columns && t == Triple(t.column, row[t.column], x)
    ensures |columns| == |triples|
    decreases columns
  {
    if columns == {} {
      assert triples == {};
    } else {
      var c :| c in columns;
      var t := Triple(c, row[c], x);
      assert t in triples;
      SameSize(columns - {c}, triples - {t}, row, x);
    }
  }

  /**
   * One column more: every row grows by its best value against what the rows before it show, and then no
   * fewer rows are appended than any rows that complete the pairs.
   */
  ghost predicate Stage(rows: seq<Row>, next: seq<Row>, columns: nat, states: nat) {
    exists grown: seq<Row> ::
      && AreRows(rows, columns, states) && |grown| == |rows| && AreRows(grown, columns + 1, states)
      && (forall i :: 0 <= i < |rows| ==>
            && rows[i] == grown[i][..columns]
            && BestValue(rows[i], Unshown(grown[..i], columns, states), columns, states, grown[i][columns]))
      && grown <= next && Accounts({}, next, columns, states)
      && forall extra :: Accounts({}, grown + extra, columns, states) ==> |next| <= |grown| + |extra|
  }

  /** The pairs that no row shows, with an old column and the new one. */
  ghost function Unshown(rows: seq<Row>, columns: nat, states: nat): set<Triple> {
    set t | t in AllTriples(columns, states) && !Shown(rows, t.column, t.value, columns, t.added)
  }

  lemma AccountsIsUnshown(missing: set<Triple>, rows: seq<Row>, columns: nat, states: nat)
    requires Accounts(missing, rows, columns, states)
    ensures missing == Unshown(rows, columns, states)
  {
  }

  lemma BestIsState(row: Row, missing: set<Triple>, columns: nat, states: nat, best: int)
    requires |row| >= columns && BestValue(row, missing, columns, states, best)
    ensures IsState(best, states)
  {
  }

  /** Horizontal growth: every row gets the new value that shows the most missing pairs. */
  method GrowRows(rows: seq<Row>, columns: nat, states: nat)
    returns (grown: seq<Row>, missing: set<Triple>)
    requires columns > 0 && AreRows(rows, columns, states)
    ensures |grown| == |rows| && AreRows(grown, columns + 1, states)
    ensures forall i :: 0 <= i < |rows| ==> rows[i] == grown[i][..columns]
    ensures forall i :: 0 <= i < |rows| ==>
      BestValue(rows[i], Unshown(grown[..i], columns, states), columns, states, grown[i][columns])
    ensures Accounts(missing, grown, columns, states)
  {
    hide BestValue;
    missing := AllTriples(columns, states);
    grown := [];
    for i := 0 to |rows|
      invariant |grown| == i && AreRows(grown, columns + 1, states)
      invariant forall j :: 0 <= j < i ==> rows[j] == grown[j][..columns]
      invariant forall j :: 0 <= j < i ==>
        BestValue(rows[j], Unshown(grown[..j], columns, states), columns, states, grown[j][columns])
      invariant Accounts(missing, grown, columns, states)
    {
      assert IsState(rows[i][0], states);
      var value := PickValue(rows[i], missing, columns, states);
      BestIsState(rows[i], missing, columns, states, value);
      AccountsIsUnshown(missing, grown, columns, states);
      assert (grown + [rows[i] + [value]])[..i] == grown;
      assert forall j :: 0 <= j < i ==> (grown + [rows[i] + [value]])[..j] == grown[..j];
      var row := rows[i] + [value];
      AccountsNext(missing, grown, row, columns, states);
      grown := grown + [row];
      missing := missing - Shows(row, columns);
    }
  }

  /** One vertical row: the least missing pair, and a missing pair of every other column if any. */
  method VerticalRow(missing: set<Triple>, columns: nat, states: nat) returns (row: Row)
    requires AreMissing(missing, columns, states) && missing != {}
    ensures IsRow(row, columns + 1, states)
    ensures TakesOnePerColumn(row, missing, columns)
    ensures missing * Shows(row, columns) != {}
    ensures MaxCell(missing, row[columns], columns) > 0
  {
    var seed := Least(missing);
    row := [];
    for column := 0 to columns
      invariant IsRow(row, column, states)
      invariant forall c :: 0 <= c < column && Cell(missing, c, seed.added) != {} ==>
        Triple(c, row[c], seed.added) in missing
      invariant seed.column < column ==> row[seed.column] == seed.value
    {
      var value := seed.value;
      if column != seed.column {
        value := PickMissing(missing, column, seed.added, states);
      }
      if t :| t in Cell(missing, column, seed.added) {
        assert IsState(t.value, states) && Triple(column, t.value, seed.added) in missing;
      }
      row := row + [value];
    }
    row := row + [seed.added];
    assert seed == Triple(seed.column, row[seed.column], row[columns]);
    assert seed in missing * Shows(row, columns);
    MaxCellPositive(missing, seed, columns);
  }

  /** Vertical growth appends exactly as many rows as the missing pairs need. */
  method AppendRows(rows: seq<Row>, uncovered: set<Triple>, columns: nat, states: nat)
    returns (grown: seq<Row>)
    requires AreRows(rows, columns + 1, states)
    requires Accounts(uncovered, rows, columns, states)
    ensures rows <= grown && AreRows(grown, columns + 1, states)
    ensures |grown| == |rows| + Need(uncovered, columns, states)
    ensures forall extra :: Accounts({}, rows + extra, columns, states) ==> |grown| <= |rows| + |extra|
    ensures Accounts({}, grown, columns, states)
  {
    var missing := uncovered;
    grown := rows;
    while missing != {}
      invariant rows <= grown && AreRows(grown, columns + 1, states)
      invariant |grown| + Need(missing, columns, states) == |rows| + Need(uncovered, columns, states)
      invariant Accounts(missing, grown, columns, states)
      decreases missing
    {
      var row := VerticalRow(missing, columns, states);
      AccountsNext(missing, grown, row, columns, states);
      NeedAfterRow(missing, row, columns, states);
      grown := grown + [row];
      missing := missing - Shows(row, columns);
    }
    NeedOfNothing(columns, states);
    forall extra | Accounts({}, rows + extra, columns, states)
      ensures |grown| <= |rows| + |extra|
    {
      FewerRowsCannotComplete(uncovered, rows, extra, columns, states);
    }
  }

  lemma {:induction false} NeedOfNothing(columns: nat, k: nat)
    ensures Need({}, columns, k) == 0
    decreases k
  {
    if k > 0 {
      NeedOfNothing(columns, k - 1);
      MaxCellOfNothing(k - 2, columns);
    }
  }

  lemma {:induction false} MaxCellOfNothing(x: int, columns: nat)
    ensures MaxCell({}, x, columns) == 0
    decreases columns
  {
    if columns > 0 {
      MaxCellOfNothing(x, columns - 1);
    }
  }

  /** All pairs of states, as the rows of the first two columns. */
  method AllPairs(states: nat) returns (rows: seq<Row>)
    ensures AreRows(rows, 2, states) && |rows| == states * states
    ensures Covering(rows, 2, states)
  {
    rows := [];
    for a := 0 to states
      invariant AreRows(rows, 2, states) && |rows| == a * states
      invariant forall u, v :: -1 <= u < a - 1 && IsState(v, states) ==> Shown(rows, 0, u, 1, v)
    {
      ghost var before, first := rows, a - 1;
      for b := 0 to states
        invariant AreRows(rows, 2, states) && |rows| == a * states + b
        invariant before <= rows
        invariant forall v :: -1 <= v < b - 1 ==> Shown(rows, 0, first, 1, v)
      {
        ghost var earlier := rows;
        rows := rows + [[a - 1, b - 1]];
        ShownGrows(earlier, rows);
        assert RowShows(rows[|earlier|], 0, a - 1, 1, b - 1);
      }
      ShownGrows(before, rows);
    }
  }

  lemma ShownGrows(rows: seq<Row>, more: seq<Row>)
    requires rows <= more
    ensures forall c: nat, a, d: nat, b :: Shown(rows, c, a, d, b) ==> Shown(more, c, a, d, b)
  {
    forall c: nat, a, d: nat, b | Shown(rows, c, a, d, b)
      ensures Shown(more, c, a, d, b)
    {
      var i :| 0 <= i < |rows| && RowShows(rows[i], c, a, d, b);
      assert more[i] == rows[i];
    }
  }

  /** Longer and more rows still show the old pairs, and the new column shows the rest. */
  lemma CoveringNext(rows: seq<Row>, grown: seq<Row>, columns: nat, states: nat)
    requires AreRows(rows, columns, states) && Covering(rows, columns, states)
    requires |rows| <= |grown| && AreRows(grown, columns + 1, states)
    requires forall i :: 0 <= i < |rows| ==> rows[i] == grown[i][..columns]
    requires Accounts({}, grown, columns, states)
    ensures Covering(grown, columns + 1, states)
  {
    forall c: nat, a, d: nat, b | c < d < columns + 1 && IsState(a, states) && IsState(b, states)
      ensures Shown(grown, c, a, d, b)
    {
      if d == columns {
        assert IsMissing(Triple(c, a, b), columns, states);
      } else {
        assert Shown(rows, c, a, d, b);
        var i :| 0 <= i < |rows| && RowShows(rows[i], c, a, d, b);
        assert rows[i][c] == grown[i][..columns][c] && rows[i][d] == grown[i][..columns][d];
        assert RowShows(grown[i], c, a, d, b);
      }
    }
  }

  lemma PrefixHolds(rows: seq<Row>, grown: seq<Row>, next: seq<Row>, columns: nat, states: nat)
    requires |grown| == |rows| && grown <= next && AreRows(grown, columns + 1, states)
    requires forall i :: 0 <= i < |rows| ==> rows[i] == grown[i][..columns]
    ensures forall i :: 0 <= i < |rows| ==> columns <= |next[i]| && rows[i] == next[i][..columns]
  {
  }

  lemma IsStage(rows: seq<Row>, grown: seq<Row>, next: seq<Row>, columns: nat, states: nat)
    requires AreRows(rows, columns, states) && |grown| == |rows| && AreRows(grown, columns + 1, states)
    requires forall i :: 0 <= i < |rows| ==>
      && rows[i] == grown[i][..columns]
      && BestValue(rows[i], Unshown(grown[..i], columns, states), columns, states, grown[i][columns])
    requires grown <= next && Accounts({}, next, columns, states)
    requires forall extra :: Accounts({}, grown + extra, columns, states) ==> |next| <= |grown| + |extra|
    ensures Stage(rows, next, columns, states)
  {
  }

  lemma MissingIsMissing(missing: set<Triple>, rows: seq<Row>, columns: nat, states: nat)
    requires Accounts(missing, rows, columns, states)
    ensures AreMissing(missing, columns, states)
  {
  }

  lemma StageSize(columns: nat, states: nat, before: nat, need: nat)
    requires columns >= 2 && before <= (columns - 1) * (states * states) && need <= states * states
    ensures before + need <= columns * (states * states)
  {
    assert columns * (states * states) == (columns - 1) * (states * states) + states * states;
  }

  /** `build_pairwise_fret_plan` for any number of columns and states. */
  method BuildPlan(columns: nat, states: nat) returns (rows: seq<Row>, ghost stages: seq<seq<Row>>)
    requires columns >= 2
    ensures |stages| == columns - 1 && stages[columns - 2] == rows
    ensures |stages[0]| == states * states && AreRows(stages[0], 2, states) && Covering(stages[0], 2, states)
    ensures forall k :: 0 <= k < columns - 2 ==> Stage(stages[k], stages[k + 1], k + 2, states)
    ensures AreRows(rows, columns, states)
    ensures Covering(rows, columns, states)
    ensures |rows| <= (columns - 1) * (states * states)
  {
    hide Accounts, Covering, Need, BestValue, Unshown, IsRow, AreRows, Stage;
    rows := AllPairs(states);
    stages := [rows];
    var column := 2;
    while column < columns
      invariant 2 <= column <= columns
      invariant AreRows(rows, column, states) && Covering(rows, column, states)
      invariant |rows| <= (column - 1) * (states * states)
      invariant |stages| == column - 1 && stages[column - 2] == rows
      invariant |stages[0]| == states * states && AreRows(stages[0], 2, states) && Covering(stages[0], 2, states)
      invariant forall k :: 0 <= k < column - 2 ==> Stage(stages[k], stages[k + 1], k + 2, states)
    {
      var grown, uncovered := GrowRows(rows, column, states);
      var all := AppendRows(grown, uncovered, column, states);
      MissingIsMissing(uncovered, grown, column, states);
      NeedAtMost(uncovered, column, column, states, states);
      StageSize(column, states, |rows|, Need(uncovered, column, states));
      PrefixHolds(rows, grown, all, column, states);
      CoveringNext(rows, all, column, states);
      IsStage(rows, grown, all, column, states);
      stages := stages + [all];
      rows := all;
      column := column + 1;
    }
  }
}
