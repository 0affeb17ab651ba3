/**
 * The record builder of `parse_pokemon_page`: from the texts the selectors
 * pick out of one creature page to a record, or to the exception that
 * aborts the page.
 *
 * Selection itself (XPath, CSS, `.get()`, `.getall()`) is not modelled: a
 * page arrives as the selectors' outputs, `.get()` as an Option and
 * `.getall()` as a sequence.
 */
module PokemonPage {
  import opened Wrappers
  import opened IntText

  /** One row of the "Base stats" table: the `th` text and the `td.cell-num` texts. */
  datatype StatRow = StatRow(attribute: Option<string>, cells: seq<string>)

  /**
   * One row of the "Moves learnt by level up" table: the move name link
   * text, the `td.cell-num` texts, the type link text and the category
   * icon's alt text.
   */
  datatype MoveRow = MoveRow(name: Option<string>, cells: seq<string>, moveType: Option<string>, category: Option<string>)

  datatype EntityPage = EntityPage(
    numberText: Option<string>,     // first `strong` text of the "Pokédex data" table
    statRows: seq<StatRow>,         // rows of every matched "Base stats" tbody, in document order
    moveTables: seq<seq<MoveRow>>,  // rows of each matched "Moves learnt by level up" tbody
    heading: Option<string>)        // text of `main#main h1`

  datatype Stat = Stat(start: int, min: int, max: int)

  datatype Move = Move(name: Option<string>, level: int, power: int, accuracy: int, moveType: Option<string>, category: Option<string>)

  /** The yielded item. A stat row without a label text is stored under the key None. */
  datatype Record = Record(attributes: map<Option<string>, Stat>, name: Option<string>, number: int, moves: seq<Move>)

  /** The exceptions that abort a page. */
  datatype Failure =
    | UnpackMismatch(got: nat)   // ValueError: a row's numeric cells do not unpack into three names
    | InvalidLiteral(text: string) // ValueError: `int(text)` on a non-literal
    | NoMoveTable                // IndexError: `moves_tbody[0]` on an empty selection
    | NumberAbsent               // TypeError: `int(None)` when the Pokédex number has no text

  /** `int(text)` as a step that may raise. */
  function IntOf(text: string): Result<int, Failure> {
    match ParseInt(text)
    case Some(n) => Success(n)
    case None => Failure(InvalidLiteral(text))
  }

  /** `int(pokemon_number)`, where the number is the optional result of `.get()`. */
  function NumberOf(numberText: Option<string>): (r: Result<int, Failure>)
    ensures numberText.None? ==> r == Failure(NumberAbsent)
    ensures numberText.Some? ==> (r.Success? <==> ParseInt(numberText.value).Some?)
    ensures r.Success? ==> ParseInt(numberText.value) == Some(r.value)
  {
    match numberText
    case None => Failure(NumberAbsent)
    case Some(text) => IntOf(text)
  }

  /** One pass of the stats loop: `start, min, max = cells` and three `int` calls. */
  function ParseStatRow(row: StatRow): (r: Result<Stat, Failure>)
    ensures r.Success? <==> |row.cells| == 3 && forall k :: 0 <= k < |row.cells| ==> ParseInt(row.cells[k]).Some?
    ensures r.Success? ==> r.value == Stat(ParseInt(row.cells[0]).value, ParseInt(row.cells[1]).value, ParseInt(row.cells[2]).value)
    ensures |row.cells| != 3 ==> r == Failure(UnpackMismatch(|row.cells|))
    ensures |row.cells| == 3 && r.Failure? ==>
      exists k :: 0 <= k < 3 && ParseInt(row.cells[k]).None? && r.error == InvalidLiteral(row.cells[k])
                  && forall j :: 0 <= j < k ==> ParseInt(row.cells[j]).Some?
  {
    if |row.cells| != 3 then Failure(UnpackMismatch(|row.cells|))
    else
      var start :- IntOf(row.cells[0]);
      var min :- IntOf(row.cells[1]);
      var max :- IntOf(row.cells[2]);
      Success(Stat(start, min, max))
  }

  /**
   * One pass of the moves loop: `level, power, acc = cells`, a strict `int`
   * for the level and `_parse_int_or_0` for power and accuracy. The name
   * is kept whether present or not.
   */
  function ParseMoveRow(row: MoveRow): (r: Result<Move, Failure>)
    ensures r.Success? <==> |row.cells| == 3 && ParseInt(row.cells[0]).Some?
    ensures r.Success? ==>
      r.value == Move(row.name, ParseInt(row.cells[0]).value, ParseIntOr0(row.cells[1]), ParseIntOr0(row.cells[2]), row.moveType, row.category)
    ensures |row.cells| != 3 ==> r == Failure(UnpackMismatch(|row.cells|))
    ensures |row.cells| == 3 && r.Failure? ==> r == Failure(InvalidLiteral(row.cells[0]))
  {
    if |row.cells| != 3 then Failure(UnpackMismatch(|row.cells|))
    else
      var level :- IntOf(row.cells[0]);
      Success(Move(row.name, level, ParseIntOr0(row.cells[1]), ParseIntOr0(row.cells[2]), row.moveType, row.category))
  }

  /** The stats loop from the current dict `acc` on: each row assigns its label, the first bad row raises. */
  function StatsLoop(rows: seq<StatRow>, acc: map<Option<string>, Stat>): Result<map<Option<string>, Stat>, Failure> {
    if rows == [] then Success(acc)
    else
      var stat :- ParseStatRow(rows[0]);
      StatsLoop(rows[1..], acc[rows[0].attribute := stat])
  }

  /** The moves loop from the current list `acc` on: each row appends, the first bad row raises. */
  function MovesLoop(rows: seq<MoveRow>, acc: seq<Move>): Result<seq<Move>, Failure> {
    if rows == [] then Success(acc)
    else
      var move :- ParseMoveRow(rows[0]);
      MovesLoop(rows[1..], acc + [move])
  }

  /** What `parse_pokemon_page` yields, or the exception it raises, in the order the source evaluates. */
  function ExtractRecord(page: EntityPage): Result<Record, Failure> {
    var attributes :- StatsLoop(page.statRows, map[]);
    if page.moveTables == [] then Failure(NoMoveTable)
    else
      var moves :- MovesLoop(page.moveTables[0], []);
      var number :- NumberOf(page.numberText);
      Success(Record(attributes, page.heading, number, moves))
  }

  /**
   * `parse_pokemon_page`: fill the attributes dict row by row, append the
   * moves row by row, then assemble the record. Any exception ends the
   * page with no record.
   */
  method ParsePokemonPage(page: EntityPage) returns (r: Result<Record, Failure>)
    ensures r == ExtractRecord(page)
  {
    var attributes: map<Option<string>, Stat> := map[];
    var rows := page.statRows;
    var i := 0;
    while i < |rows|
      invariant 0 <= i <= |rows|
      invariant StatsLoop(rows[i..], attributes) == StatsLoop(rows, map[])
    {
      var row := rows[i];
      assert rows[i..][1..] == rows[i + 1..];
      if |row.cells| != 3 {
        return Failure(UnpackMismatch(|row.cells|));
      }
      var start := ParseInt(row.cells[0]);
      if start.None? {
        return Failure(InvalidLiteral(row.cells[0]));
      }
      var min := ParseInt(row.cells[1]);
      if min.None? {
        return Failure(InvalidLiteral(row.cells[1]));
      }
      var max := ParseInt(row.cells[2]);
      if max.None? {
        return Failure(InvalidLiteral(row.cells[2]));
      }
      attributes := attributes[row.attribute := Stat(start.value, min.value, max.value)];
      i := i + 1;
    }

    var moves: seq<Move> := [];
    if |page.moveTables| == 0 {
      return Failure(NoMoveTable);
    }
    var moveRows := page.moveTables[0];
    var j := 0;
    while j < |moveRows|
      invariant 0 <= j <= |moveRows|
      invariant MovesLoop(moveRows[j..], moves) == MovesLoop(moveRows, [])
    {
      var row := moveRows[j];
      assert moveRows[j..][1..] == moveRows[j + 1..];
      if |row.cells| != 3 {
        return Failure(UnpackMismatch(|row.cells|));
      }
      var level := ParseInt(row.cells[0]);
      if level.None? {
        return Failure(InvalidLiteral(row.cells[0]));
      }
      var move := Move(row.name, level.value, ParseIntOr0(row.cells[1]), ParseIntOr0(row.cells[2]), row.moveType, row.category);
      moves := moves + [move];
      j := j + 1;
    }

    if page.numberText.None? {
      return Failure(NumberAbsent);
    }
    var number := ParseInt(page.numberText.value);
    if number.None? {
      return Failure(InvalidLiteral(page.numberText.value));
    }
    r := Success(Record(attributes, page.heading, number.value, moves));
  }

  // ---------------------------------------------------------------------
  // The stats loop

  /** The labels of a run of stat rows. */
  function Labels(rows: seq<StatRow>): set<Option<string>> {
    set i | 0 <= i < |rows| :: rows[i].attribute
  }

  /** Row i is the last row carrying its label. */
  predicate LastWithLabel(rows: seq<StatRow>, i: nat)
    requires i < |rows|
  {
    forall j :: i < j < |rows| ==> rows[j].attribute != rows[i].attribute
  }

  /** The stats loop raises exactly when some row is bad, and then with the first bad row's exception. */
  lemma {:induction false} StatsLoopFailure(rows: seq<StatRow>, acc: map<Option<string>, Stat>)
    ensures StatsLoop(rows, acc).Failure? <==> exists i :: 0 <= i < |rows| && ParseStatRow(rows[i]).Failure?
    ensures StatsLoop(rows, acc).Failure? ==>
      exists i :: 0 <= i < |rows| && ParseStatRow(rows[i]) == Failure(StatsLoop(rows, acc).error)
                  && forall j :: 0 <= j < i ==> ParseStatRow(rows[j]).Success?
  {
    if rows != [] {
      var r0 := ParseStatRow(rows[0]);
      if r0.Success? {
        StatsLoopFailure(rows[1..], acc[rows[0].attribute := r0.value]);
        if StatsLoop(rows, acc).Failure? {
          var i :| 0 <= i < |rows[1..]| && ParseStatRow(rows[1..][i]) == Failure(StatsLoop(rows, acc).error)
                   && forall j :: 0 <= j < i ==> ParseStatRow(rows[1..][j]).Success?;
          assert ParseStatRow(rows[i + 1]) == Failure(StatsLoop(rows, acc).error);
          assert forall j :: 0 <= j < i + 1 ==> ParseStatRow(rows[j]).Success? by {
            forall j | 0 <= j < i + 1 ensures ParseStatRow(rows[j]).Success? {
              if j > 0 { assert rows[j] == rows[1..][j - 1]; }
            }
          }
        } else {
          forall i | 0 <= i < |rows| ensures ParseStatRow(rows[i]).Success? {
            if i > 0 { assert rows[i] == rows[1..][i - 1]; }
          }
        }
      }
    }
  }

  lemma LabelsCons(rows: seq<StatRow>)
    requires rows != []
    ensures Labels(rows) == {rows[0].attribute} + Labels(rows[1..])
  {
  }

  lemma LastWithLabelHead(rows: seq<StatRow>)
    requires rows != [] && LastWithLabel(rows, 0)
    ensures rows[0].attribute !in Labels(rows[1..])
  {
  }

  lemma LastWithLabelTail(rows: seq<StatRow>, i: nat)
    requires 0 < i < |rows| && LastWithLabel(rows, i)
    ensures LastWithLabel(rows[1..], i - 1)
  {
  }

  /** A completed stats loop adds exactly the row labels as keys and leaves every other key alone. */
  lemma {:induction false} StatsLoopKeys(rows: seq<StatRow>, acc: map<Option<string>, Stat>, m: map<Option<string>, Stat>)
    requires StatsLoop(rows, acc) == Success(m)
    ensures m.Keys == acc.Keys + Labels(rows)
    ensures forall k :: k in acc && k !in Labels(rows) ==> m[k] == acc[k]
  {
    if rows != [] {
      var acc' := acc[rows[0].attribute := ParseStatRow(rows[0]).value];
      assert StatsLoop(rows[1..], acc') == Success(m);
      StatsLoopKeys(rows[1..], acc', m);
      LabelsCons(rows);
    }
  }

  /** In a completed stats loop, the last row carrying a label decides that label's value. */
  lemma {:induction false} StatsLoopLastWins(rows: seq<StatRow>, acc: map<Option<string>, Stat>, m: map<Option<string>, Stat>)
    requires StatsLoop(rows, acc) == Success(m)
    ensures forall i :: 0 <= i < |rows| ==> rows[i].attribute in m
    ensures forall i :: 0 <= i < |rows| && LastWithLabel(rows, i) ==>
      ParseStatRow(rows[i]).Success? && m[rows[i].attribute] == ParseStatRow(rows[i]).value
  {
    StatsLoopFailure(rows, acc);
    StatsLoopKeys(rows, acc, m);
    if rows != [] {
      var tail := rows[1..];
      var acc' := acc[rows[0].attribute := ParseStatRow(rows[0]).value];
      assert StatsLoop(tail, acc') == Success(m);
      StatsLoopLastWins(tail, acc', m);
      StatsLoopKeys(tail, acc', m);
      forall i | 0 <= i < |rows| && LastWithLabel(rows, i)
        ensures m[rows[i].attribute] == ParseStatRow(rows[i]).value
      {
        if i == 0 {
          LastWithLabelHead(rows);
        } else {
          assert rows[i] == tail[i - 1];
          LastWithLabelTail(rows, i);
        }
      }
    }
  }

  /**
   * When the stats loop completes, every row parsed, and the dict has the
   * keys it started with plus one per row label; a label's value is the
   * parse of the last row carrying it, and a key no row carries keeps its
   * old value.
   */
  lemma StatsLoopSuccess(rows: seq<StatRow>, acc: map<Option<string>, Stat>, m: map<Option<string>, Stat>)
    requires StatsLoop(rows, acc) == Success(m)
    ensures forall i :: 0 <= i < |rows| ==> ParseStatRow(rows[i]).Success?
    ensures m.Keys == acc.Keys + Labels(rows)
    ensures forall i :: 0 <= i < |rows| && LastWithLabel(rows, i) ==> m[rows[i].attribute] == ParseStatRow(rows[i]).value
    ensures forall k :: k in acc && k !in Labels(rows) ==> m[k] == acc[k]
  {
    StatsLoopFailure(rows, acc);
    StatsLoopKeys(rows, acc, m);
    StatsLoopLastWins(rows, acc, m);
  }

  // ---------------------------------------------------------------------
  // The moves loop

  /** The moves loop raises exactly when some row is bad, and then with the first bad row's exception. */
  lemma {:induction false} MovesLoopFailure(rows: seq<MoveRow>, acc: seq<Move>)
    ensures MovesLoop(rows, acc).Failure? <==> exists i :: 0 <= i < |rows| && ParseMoveRow(rows[i]).Failure?
    ensures MovesLoop(rows, acc).Failure? ==>
      exists i :: 0 <= i < |rows| && ParseMoveRow(rows[i]) == Failure(MovesLoop(rows, acc).error)
                  && forall j :: 0 <= j < i ==> ParseMoveRow(rows[j]).Success?
  {
    if rows != [] {
      var r0 := ParseMoveRow(rows[0]);
      if r0.Success? {
        MovesLoopFailure(rows[1..], acc + [r0.value]);
        if MovesLoop(rows, acc).Failure? {
          var i :| 0 <= i < |rows[1..]| && ParseMoveRow(rows[1..][i]) == Failure(MovesLoop(rows, acc).error)
                   && forall j :: 0 <= j < i ==> ParseMoveRow(rows[1..][j]).Success?;
          assert ParseMoveRow(rows[i + 1]) == Failure(MovesLoop(rows, acc).error);
          assert forall j :: 0 <= j < i + 1 ==> ParseMoveRow(rows[j]).Success? by {
            forall j | 0 <= j < i + 1 ensures ParseMoveRow(rows[j]).Success? {
              if j > 0 { assert rows[j] == rows[1..][j - 1]; }
            }
          }
        } else {
          forall i | 0 <= i < |rows| ensures ParseMoveRow(rows[i]).Success? {
            if i > 0 { assert rows[i] == rows[1..][i - 1]; }
          }
        }
      }
    }
  }

  /** When the moves loop completes, it has appended one move per row, in row order. */
  lemma {:induction false} MovesLoopSuccess(rows: seq<MoveRow>, acc: seq<Move>, ms: seq<Move>)
    requires MovesLoop(rows, acc) == Success(ms)
    ensures forall i :: 0 <= i < |rows| ==> ParseMoveRow(rows[i]).Success?
    ensures |ms| == |acc| + |rows|
    ensures ms[..|acc|] == acc
    ensures forall i :: 0 <= i < |rows| ==> ms[|acc| + i] == ParseMoveRow(rows[i]).value
  {
    MovesLoopFailure(rows, acc);
    if rows != [] {
      var m0 := ParseMoveRow(rows[0]).value;
      var tail := rows[1..];
      MovesLoopSuccess(tail, acc + [m0], ms);
      assert ms[..|acc|] == ms[..|acc| + 1][..|acc|];
      forall i | 0 <= i < |rows| ensures ms[|acc| + i] == ParseMoveRow(rows[i]).value {
        if i == 0 {
          assert ms[|acc|] == ms[..|acc| + 1][|acc|];
        } else {
          assert rows[i] == tail[i - 1];
          assert |acc| + i == |acc + [m0]| + (i - 1);
        }
      }
    }
  }

  // ---------------------------------------------------------------------
  // The whole page

  /** The conditions under which every step of the page succeeds. */
  predicate PageIsWellFormed(page: EntityPage) {
    && (forall i :: 0 <= i < |page.statRows| ==> ParseStatRow(page.statRows[i]).Success?)
    && page.moveTables != []
    && (forall i :: 0 <= i < |page.moveTables[0]| ==> ParseMoveRow(page.moveTables[0][i]).Success?)
    && page.numberText.Some?
    && ParseInt(page.numberText.value).Some?
  }

  /**
   * A page yields a record exactly when every stat row and every row of the
   * first move table parses, the move table exists and the number parses;
   * otherwise the page raises and nothing is yielded.
   */
  lemma ExtractSucceedsIff(page: EntityPage)
    ensures ExtractRecord(page).Success? <==> PageIsWellFormed(page)
  {
    StatsLoopFailure(page.statRows, map[]);
    if page.moveTables != [] {
      MovesLoopFailure(page.moveTables[0], []);
    }
  }

  /**
   * The record a page yields: one attribute per distinct stat label holding
   * the last such row's three numbers, one move per row of the first move
   * table in row order, the heading as the name and `int` of the number text.
   */
  lemma ExtractedRecord(page: EntityPage, rec: Record)
    requires ExtractRecord(page) == Success(rec)
    ensures PageIsWellFormed(page)
    ensures rec.name == page.heading
    ensures ParseInt(page.numberText.value) == Some(rec.number)
    ensures rec.attributes.Keys == Labels(page.statRows)
    ensures forall i :: 0 <= i < |page.statRows| && LastWithLabel(page.statRows, i) ==>
      rec.attributes[page.statRows[i].attribute] == ParseStatRow(page.statRows[i]).value
    ensures |rec.moves| == |page.moveTables[0]|
    ensures forall i :: 0 <= i < |rec.moves| ==> rec.moves[i] == ParseMoveRow(page.moveTables[0][i]).value
  {
    ExtractSucceedsIff(page);
    var attributes := StatsLoop(page.statRows, map[]).value;
    StatsLoopSuccess(page.statRows, map[], attributes);
    var moves := MovesLoop(page.moveTables[0], []).value;
    MovesLoopSuccess(page.moveTables[0], [], moves);
  }

  /**
   * The exception a failing page raises, case by case in the source's
   * order: the first bad stat row's; else the IndexError of a missing move
   * table; else the first bad move row's; else that of the number.
   */
  lemma FailingPageError(page: EntityPage)
    ensures (exists i :: 0 <= i < |page.statRows| && ParseStatRow(page.statRows[i]).Failure?) ==>
      exists i :: 0 <= i < |page.statRows| && ParseStatRow(page.statRows[i]).Failure?
                  && ExtractRecord(page) == Failure(ParseStatRow(page.statRows[i]).error)
                  && forall j :: 0 <= j < i ==> ParseStatRow(page.statRows[j]).Success?
    ensures (forall i :: 0 <= i < |page.statRows| ==> ParseStatRow(page.statRows[i]).Success?) && page.moveTables == [] ==>
      ExtractRecord(page) == Failure(NoMoveTable)
    ensures (forall i :: 0 <= i < |page.statRows| ==> ParseStatRow(page.statRows[i]).Success?) && page.moveTables != []
            && (exists i :: 0 <= i < |page.moveTables[0]| && ParseMoveRow(page.moveTables[0][i]).Failure?) ==>
      exists i :: 0 <= i < |page.moveTables[0]| && ParseMoveRow(page.moveTables[0][i]).Failure?
                  && ExtractRecord(page) == Failure(ParseMoveRow(page.moveTables[0][i]).error)
                  && forall j :: 0 <= j < i ==> ParseMoveRow(page.moveTables[0][j]).Success?
    ensures (forall i :: 0 <= i < |page.statRows| ==> ParseStatRow(page.statRows[i]).Success?) && page.moveTables != []
            && (forall i :: 0 <= i < |page.moveTables[0]| ==> ParseMoveRow(page.moveTables[0][i]).Success?) ==>
      && (page.numberText.None? ==> ExtractRecord(page) == Failure(NumberAbsent))
      && (page.numberText.Some? && ParseInt(page.numberText.value).None? ==>
            ExtractRecord(page) == Failure(InvalidLiteral(page.numberText.value)))
  {
    StatsLoopFailure(page.statRows, map[]);
    if page.moveTables != [] {
      MovesLoopFailure(page.moveTables[0], []);
    }
  }

  /** Each stored stat is the three cells of its row read by `int`, in order. */
  lemma ExtractedStat(page: EntityPage, rec: Record, i: nat)
    requires ExtractRecord(page) == Success(rec)
    requires i < |page.statRows| && LastWithLabel(page.statRows, i)
    ensures |page.statRows[i].cells| == 3
    ensures forall k :: 0 <= k < 3 ==> ParseInt(page.statRows[i].cells[k]).Some?
    ensures page.statRows[i].attribute in rec.attributes
    ensures rec.attributes[page.statRows[i].attribute] ==
      Stat(ParseInt(page.statRows[i].cells[0]).value, ParseInt(page.statRows[i].cells[1]).value, ParseInt(page.statRows[i].cells[2]).value)
  {
    ExtractedRecord(page, rec);
    assert ParseStatRow(page.statRows[i]).Success?;
  }

  /** Each move is its row's name, type and category with `int` of the level and `_parse_int_or_0` of power and accuracy. */
  lemma ExtractedMove(page: EntityPage, rec: Record, i: nat)
    requires ExtractRecord(page) == Success(rec)
    requires page.moveTables != [] && i < |page.moveTables[0]|
    ensures |page.moveTables[0][i].cells| == 3 && ParseInt(page.moveTables[0][i].cells[0]).Some?
    ensures i < |rec.moves|
    ensures var row := page.moveTables[0][i];
      rec.moves[i] == Move(row.name, ParseInt(row.cells[0]).value, ParseIntOr0(row.cells[1]), ParseIntOr0(row.cells[2]), row.moveType, row.category)
  {
    ExtractedRecord(page, rec);
    assert ParseMoveRow(page.moveTables[0][i]).Success?;
  }

  /** A stat row whose numeric cells are not exactly three, or one of them not an integer, aborts the page. */
  lemma BadStatRowFailsPage(page: EntityPage, i: nat)
    requires i < |page.statRows|
    requires |page.statRows[i].cells| != 3 || exists k :: 0 <= k < |page.statRows[i].cells| && ParseInt(page.statRows[i].cells[k]).None?
    ensures ExtractRecord(page).Failure?
  {
    ExtractSucceedsIff(page);
  }

  /** A move row whose numeric cells are not exactly three, or whose level is not an integer, aborts the page. */
  lemma BadMoveRowFailsPage(page: EntityPage, i: nat)
    requires page.moveTables != [] && i < |page.moveTables[0]|
    requires |page.moveTables[0][i].cells| != 3 || ParseInt(page.moveTables[0][i].cells[0]).None?
    ensures ExtractRecord(page).Failure?
  {
    ExtractSucceedsIff(page);
  }

  /** With every stat row good, a missing move table raises the IndexError. */
  lemma MissingMoveTableFailsPage(page: EntityPage)
    requires page.moveTables == []
    ensures ExtractRecord(page).Failure?
    ensures StatsLoop(page.statRows, map[]).Success? ==> ExtractRecord(page) == Failure(NoMoveTable)
  {
  }

  /** An absent or non-integer Pokédex number aborts the page. */
  lemma BadNumberFailsPage(page: EntityPage)
    requires page.numberText.None? || ParseInt(page.numberText.value).None?
    ensures ExtractRecord(page).Failure?
  {
  }

  /**
   * Power and accuracy never decide whether a page succeeds: replacing the
   * power and accuracy texts of any move row leaves the outcome's success
   * unchanged.
   */
  lemma PowerAccuracyTolerated(page: EntityPage, i: nat, power: string, accuracy: string)
    requires page.moveTables != [] && i < |page.moveTables[0]| && |page.moveTables[0][i].cells| == 3
    ensures var row := page.moveTables[0][i];
      var row' := row.(cells := [row.cells[0], power, accuracy]);
      var page' := page.(moveTables := page.moveTables[0 := page.moveTables[0][i := row']]);
      ExtractRecord(page').Success? == ExtractRecord(page).Success?
  {
    var rows := page.moveTables[0];
    var row := rows[i];
    var row' := row.(cells := [row.cells[0], power, accuracy]);
    var rows' := rows[i := row'];
    var page' := page.(moveTables := page.moveTables[0 := rows']);
    ExtractSucceedsIff(page);
    ExtractSucceedsIff(page');
    assert page'.moveTables[0] == rows';
    forall j | 0 <= j < |rows| ensures ParseMoveRow(rows'[j]).Success? == ParseMoveRow(rows[j]).Success? {
      if j == i {
        assert rows'[j] == row';
      }
    }
    assert PageIsWellFormed(page') == PageIsWellFormed(page);
  }

  /**
   * A page whose stats block is absent does not fail for it: it yields a
   * record exactly when the move table and the number allow, and that
   * record has no attributes.
   */
  lemma NoStatRowsNoAttributes(page: EntityPage)
    requires page.statRows == []
    ensures ExtractRecord(page).Success? <==>
      && page.moveTables != []
      && (forall i :: 0 <= i < |page.moveTables[0]| ==> ParseMoveRow(page.moveTables[0][i]).Success?)
      && page.numberText.Some?
      && ParseInt(page.numberText.value).Some?
    ensures ExtractRecord(page).Success? ==> ExtractRecord(page).value.attributes == map[]
  {
    ExtractSucceedsIff(page);
  }

  lemma ThunderShockStatRow()
    ensures ParseStatRow(StatRow(Some("HP"), ["35", "7", "65"])) == Success(Stat(35, 7, 65))
  {
  }

  lemma ThunderShockMoveRow()
    ensures ParseMoveRow(MoveRow(Some("Thunder Shock"), ["1", "40", "100"], Some("Electric"), Some("Physical")))
      == Success(Move(Some("Thunder Shock"), 1, 40, 100, Some("Electric"), Some("Physical")))
  {
    DecimalParses("1");
    DecimalParses("40");
    DecimalParses("100");
  }

  /** An example page: number "25", one stat row for HP, one move row for Thunder Shock. */
  lemma ThunderShockExample()
    ensures ExtractRecord(EntityPage(
      Some("25"),
      [StatRow(Some("HP"), ["35", "7", "65"])],
      [[MoveRow(Some("Thunder Shock"), ["1", "40", "100"], Some("Electric"), Some("Physical"))]],
      Some("Pikachu")))
      == Success(Record(
        map[Some("HP") := Stat(35, 7, 65)],
        Some("Pikachu"),
        25,
        [Move(Some("Thunder Shock"), 1, 40, 100, Some("Electric"), Some("Physical"))]))
  {
    var stat := StatRow(Some("HP"), ["35", "7", "65"]);
    var move := MoveRow(Some("Thunder Shock"), ["1", "40", "100"], Some("Electric"), Some("Physical"));
    var m := Move(Some("Thunder Shock"), 1, 40, 100, Some("Electric"), Some("Physical"));
    var noStats: map<Option<string>, Stat> := map[];
    var noMoves: seq<Move> := [];
    ThunderShockStatRow();
    ThunderShockMoveRow();
    DecimalParses("25");
    assert [stat][1..] == [] && [move][1..] == [] && noMoves + [m] == [m];
    assert StatsLoop([stat], noStats) == StatsLoop([], noStats[Some("HP") := Stat(35, 7, 65)]);
    assert MovesLoop([move], noMoves) == MovesLoop([], noMoves + [m]);
  }

  /** A status move with a dash for power and accuracy is kept with power 0 and accuracy 0. */
  lemma DashPowerExample(level: string)
    requires ParseInt(level).Some?
    ensures ParseMoveRow(MoveRow(Some("Growl"), [level, "—", "—"], Some("Normal"), Some("Status")))
      == Success(Move(Some("Growl"), ParseInt(level).value, 0, 0, Some("Normal"), Some("Status")))
  {
  }
}
