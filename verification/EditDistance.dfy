/** The edit script that the vendored Google Test computes to explain why two
    texts differ: a table of costs, a table of best moves, and a walk back
    through the moves.

    Costs are counted in units of 0.00001: an addition or removal costs
    100000 units, a replacement 100001. */
module EditDistance {

  datatype EditType = Match | Add | Remove | Replace {
    predicate TakesLeft() { this != Add }
    predicate TakesRight() { this != Remove }
  }

  function Units(edits: nat): nat {
    edits * 100000
  }

  function WholeEdits(cost: nat): nat {
    cost / 100000
  }

  // ----- What a script does -----

  /** Script `e` leads from position (i, j) of the two texts to (i2, j2): every
      move consumes what it says it does, and a match only pairs equal elements. */
  ghost predicate Leads<T>(e: seq<EditType>, left: seq<T>, right: seq<T>, i: nat, j: nat, i2: nat, j2: nat)
    requires i2 <= |left| && j2 <= |right|
  {
    if e == [] then i == i2 && j == j2
    else
      && (e[0].TakesLeft() ==> i < i2)
      && (e[0].TakesRight() ==> j < j2)
      && (e[0] == Match ==> left[i] == right[j])
      && Leads(e[1..], left, right, i + Step(e[0].TakesLeft()), j + Step(e[0].TakesRight()), i2, j2)
  }

  function Step(taken: bool): nat {
    if taken then 1 else 0
  }

  /** A script for the whole of both texts. */
  ghost predicate IsScript<T>(e: seq<EditType>, left: seq<T>, right: seq<T>) {
    Leads(e, left, right, 0, 0, |left|, |right|)
  }

  /** What comes out when a script is carried out on `left[i..]`: matched
      elements are copied from the left text, the others are dropped; what the
      script adds, or puts in place of a dropped element, is `right`'s next. */
  ghost function Output<T>(e: seq<EditType>, left: seq<T>, right: seq<T>, i: nat, j: nat): seq<T>
    requires Leads(e, left, right, i, j, |left|, |right|)
  {
    if e == [] then []
    else
      (match e[0]
       case Match => [left[i]]
       case Remove => []
       case Add => [right[j]]
       case Replace => [right[j]])
      + Output(e[1..], left, right, i + Step(e[0].TakesLeft()), j + Step(e[0].TakesRight()))
  }

  lemma {:induction false} ScriptTurnsLeftIntoRight<T>(e: seq<EditType>, left: seq<T>, right: seq<T>, i: nat, j: nat)
    requires Leads(e, left, right, i, j, |left|, |right|)
    ensures j <= |right| && Output(e, left, right, i, j) == right[j..]
  {
    if e != [] {
      ScriptTurnsLeftIntoRight(e[1..], left, right, i + Step(e[0].TakesLeft()), j + Step(e[0].TakesRight()));
    }
  }

  ghost function Edits(e: seq<EditType>): nat {
    if e == [] then 0 else Edits(e[..|e| - 1]) + Step(e[|e| - 1] != Match)
  }

  ghost function Replaces(e: seq<EditType>): nat {
    if e == [] then 0 else Replaces(e[..|e| - 1]) + Step(e[|e| - 1] == Replace)
  }

  /** A script for `left[..i]` and `right[..j]` than which none has fewer edits. */
  ghost predicate IsMinimal<T>(e: seq<EditType>, left: seq<T>, right: seq<T>, i: nat, j: nat)
    requires i <= |left| && j <= |right|
  {
    && Leads(e, left, right, 0, 0, i, j)
    && forall other :: Leads(other, left, right, 0, 0, i, j) ==> Edits(e) <= Edits(other)
  }

  lemma {:induction false} LeadsSnoc<T>(e: seq<EditType>, m: EditType, left: seq<T>, right: seq<T>,
                                        i: nat, j: nat, i2: nat, j2: nat)
    requires i2 <= |left| && j2 <= |right|
    ensures Leads(e + [m], left, right, i, j, i2, j2) <==>
            && i2 >= Step(m.TakesLeft()) && j2 >= Step(m.TakesRight())
            && (m == Match ==> left[i2 - 1] == right[j2 - 1])
            && Leads(e, left, right, i, j, i2 - Step(m.TakesLeft()), j2 - Step(m.TakesRight()))
  {
    var i1, j1 := i2 - Step(m.TakesLeft()), j2 - Step(m.TakesRight());
    if e == [] {
      assert e + [m] == [m];
      assert [m][1..] == [];
    } else {
      assert (e + [m])[1..] == e[1..] + [m];
      LeadsSnoc(e[1..], m, left, right,
                i + Step(e[0].TakesLeft()), j + Step(e[0].TakesRight()), i2, j2);
      if i1 >= 0 && j1 >= 0
          && Leads(e[1..], left, right, i + Step(e[0].TakesLeft()), j + Step(e[0].TakesRight()), i1, j1) {
        LeadsForward(e[1..], left, right, i + Step(e[0].TakesLeft()), j + Step(e[0].TakesRight()), i1, j1);
      }
    }
  }

  lemma {:induction false} LeadsForward<T>(e: seq<EditType>, left: seq<T>, right: seq<T>, i: nat, j: nat, i2: nat,
                                           j2: nat)
    requires i2 <= |left| && j2 <= |right| && Leads(e, left, right, i, j, i2, j2)
    ensures i <= i2 && j <= j2
  {
    if e != [] {
      LeadsForward(e[1..], left, right, i + Step(e[0].TakesLeft()), j + Step(e[0].TakesRight()), i2, j2);
    }
  }

  // ----- The reference distance -----

  /** Wagner and Fischer's recurrence. */
  ghost function Distance<T>(left: seq<T>, right: seq<T>, i: nat, j: nat): nat
    requires i <= |left| && j <= |right|
  {
    if i == 0 || j == 0 then i + j
    else
      Min(Distance(left, right, i - 1, j - 1) + Step(left[i - 1] != right[j - 1]),
          Min(Distance(left, right, i - 1, j), Distance(left, right, i, j - 1)) + 1)
  }

  ghost function Min(a: nat, b: nat): nat {
    if a <= b then a else b
  }

  lemma {:induction false} NoScriptBeatsDistance<T>(e: seq<EditType>, left: seq<T>, right: seq<T>, i: nat, j: nat)
    requires i <= |left| && j <= |right| && Leads(e, left, right, 0, 0, i, j)
    ensures Edits(e) >= Distance(left, right, i, j)
  {
    if e != [] {
      var rest, m := e[..|e| - 1], e[|e| - 1];
      assert e == rest + [m];
      LeadsSnoc(rest, m, left, right, 0, 0, i, j);
      NoScriptBeatsDistance(rest, left, right, i - Step(m.TakesLeft()), j - Step(m.TakesRight()));
    }
  }

  /** Neighbouring prefixes differ by at most one edit, so taking a match when
      there is one never hurts. */
  lemma {:induction false} DistanceNeighbours<T>(left: seq<T>, right: seq<T>, i: nat, j: nat)
    requires i <= |left| && j <= |right|
    ensures i > 0 ==> Distance(left, right, i - 1, j) <= Distance(left, right, i, j) + 1
    ensures j > 0 ==> Distance(left, right, i, j - 1) <= Distance(left, right, i, j) + 1
    ensures i > 0 && j > 0 ==> Distance(left, right, i - 1, j - 1) <= Distance(left, right, i, j)
    ensures i > 0 && j > 0 && left[i - 1] == right[j - 1] ==>
              Distance(left, right, i, j) == Distance(left, right, i - 1, j - 1)
  {
    if i > 0 && j > 0 {
      DistanceNeighbours(left, right, i - 1, j);
      DistanceNeighbours(left, right, i, j - 1);
      DistanceNeighbours(left, right, i - 1, j - 1);
    }
  }

  // ----- What the tables hold -----

  /** The cell chosen for position (i, j): its cost and the move into it. */
  ghost function Cell<T>(left: seq<T>, right: seq<T>, i: nat, j: nat): (nat, EditType)
    requires i <= |left| && j <= |right|
  {
    if j == 0 then (Units(i), Remove)
    else if i == 0 then (Units(j), Add)
    else
      var replace := Cell(left, right, i - 1, j - 1).0;
      if left[i - 1] == right[j - 1] then (replace, Match)
      else Choose(Cell(left, right, i, j - 1).0, Cell(left, right, i - 1, j).0, replace)
  }

  function Choose(add: nat, remove: nat, replace: nat): (nat, EditType) {
    if add < remove && add < replace then (add + Units(1), Add)
    else if remove < add && remove < replace then (remove + Units(1), Remove)
    else (replace + Units(1) + 1, Replace)
  }

  /** The script read off the table of moves from position (i, j) back. */
  ghost function Path<T>(left: seq<T>, right: seq<T>, i: nat, j: nat): seq<EditType>
    requires i <= |left| && j <= |right|
    decreases i + j
  {
    if i == 0 && j == 0 then []
    else
      var move := Cell(left, right, i, j).1;
      Path(left, right, i - Step(move.TakesLeft()), j - Step(move.TakesRight())) + [move]
  }

  lemma {:induction false} PathIsScript<T>(left: seq<T>, right: seq<T>, i: nat, j: nat)
    requires i <= |left| && j <= |right|
    ensures Leads(Path(left, right, i, j), left, right, 0, 0, i, j)
    decreases i + j
  {
    if i > 0 || j > 0 {
      var move := Cell(left, right, i, j).1;
      var i1, j1 := i - Step(move.TakesLeft()), j - Step(move.TakesRight());
      PathIsScript(left, right, i1, j1);
      LeadsSnoc(Path(left, right, i1, j1), move, left, right, 0, 0, i, j);
    }
  }

  /** What a script costs, surcharges included. */
  ghost function ScriptCost(e: seq<EditType>): nat {
    if e == [] then 0
    else ScriptCost(e[..|e| - 1]) + Units(Step(e[|e| - 1] != Match)) + Step(e[|e| - 1] == Replace)
  }

  lemma {:induction false} ScriptCostSplits(e: seq<EditType>)
    ensures ScriptCost(e) == Units(Edits(e)) + Replaces(e)
  {
    if e != [] {
      ScriptCostSplits(e[..|e| - 1]);
    }
  }

  lemma {:induction false} ReplacesFitBothTexts<T>(e: seq<EditType>, left: seq<T>, right: seq<T>, i: nat, j: nat)
    requires i <= |left| && j <= |right| && Leads(e, left, right, 0, 0, i, j)
    ensures Replaces(e) <= Min(i, j)
  {
    if e != [] {
      var rest, m := e[..|e| - 1], e[|e| - 1];
      assert e == rest + [m];
      LeadsSnoc(rest, m, left, right, 0, 0, i, j);
      ReplacesFitBothTexts(rest, left, right, i - Step(m.TakesLeft()), j - Step(m.TakesRight()));
    }
  }

  lemma CellCost<T>(left: seq<T>, right: seq<T>, i: nat, j: nat)
    requires i <= |left| && j <= |right| && (i > 0 || j > 0)
    ensures var (cost, move) := Cell(left, right, i, j);
            && Step(move.TakesLeft()) <= i && Step(move.TakesRight()) <= j
            && cost == Cell(left, right, i - Step(move.TakesLeft()), j - Step(move.TakesRight())).0
                       + Units(Step(move != Match)) + Step(move == Replace)
  {
  }

  lemma PathStep<T>(left: seq<T>, right: seq<T>, i: nat, j: nat)
    requires i <= |left| && j <= |right| && (i > 0 || j > 0)
    ensures var move := Cell(left, right, i, j).1;
            && Step(move.TakesLeft()) <= i && Step(move.TakesRight()) <= j
            && Path(left, right, i, j) ==
                Path(left, right, i - Step(move.TakesLeft()), j - Step(move.TakesRight())) + [move]
  {
  }

  lemma ScriptCostSnoc(e: seq<EditType>, m: EditType)
    ensures ScriptCost(e + [m]) == ScriptCost(e) + Units(Step(m != Match)) + Step(m == Replace)
  {
    assert (e + [m])[..|e + [m]| - 1] == e;
  }

  lemma NothingCosts<T>(left: seq<T>, right: seq<T>)
    ensures Cell(left, right, 0, 0).0 == ScriptCost(Path(left, right, 0, 0)) == 0
  {
  }

  /** A cell's cost is that of the script behind it. */
  lemma {:induction false} CellCostIsScriptCost<T>(left: seq<T>, right: seq<T>, i: nat, j: nat)
    requires i <= |left| && j <= |right|
    ensures Cell(left, right, i, j).0 == ScriptCost(Path(left, right, i, j))
    decreases i + j
  {
    hide Cell, Path, ScriptCost;
    if i == 0 && j == 0 {
      NothingCosts(left, right);
      return;
    }
    CellCost(left, right, i, j);
    PathStep(left, right, i, j);
    var move := Cell(left, right, i, j).1;
    var i1, j1 := i - Step(move.TakesLeft()), j - Step(move.TakesRight());
    CellCostIsScriptCost(left, right, i1, j1);
    ScriptCostSnoc(Path(left, right, i1, j1), move);
  }

  /** The cost of position (i, j) in whole edits, the surcharges dropped. */
  ghost function CellEdits<T>(left: seq<T>, right: seq<T>, i: nat, j: nat): nat
    requires i <= |left| && j <= |right|
  {
    WholeEdits(Cell(left, right, i, j).0)
  }

  // ----- When the script is minimal -----

  /** One text is short enough that the surcharges of all replacements together
      stay below one edit. */
  ghost predicate Small<T>(left: seq<T>, right: seq<T>) {
    |left| < Units(1) || |right| < Units(1)
  }

  /** Addition and removal tie, and both beat replacement by an edit; the choice
      falls on replacement all the same. */
  ghost predicate TiedAwayFromReplace<T>(left: seq<T>, right: seq<T>, i: nat, j: nat)
    requires i <= |left| && j <= |right|
  {
    && i > 0 && j > 0 && left[i - 1] != right[j - 1]
    && Cell(left, right, i, j - 1).0 == Cell(left, right, i - 1, j).0
    && CellEdits(left, right, i, j - 1) < CellEdits(left, right, i - 1, j - 1)
  }

  /** Position (i, j) can be reached by moves that each cost one edit in the
      reference distance, take every match, and avoid all ties. */
  ghost predicate ReachedUntied<T>(left: seq<T>, right: seq<T>, i: nat, j: nat)
    requires i <= |left| && j <= |right|
  {
    if i == 0 || j == 0 then true
    else if left[i - 1] == right[j - 1] then ReachedUntied(left, right, i - 1, j - 1)
    else
      var d := Distance(left, right, i, j);
      && !TiedAwayFromReplace(left, right, i, j)
      && ( || (Distance(left, right, i, j - 1) + 1 == d && ReachedUntied(left, right, i, j - 1))
           || (Distance(left, right, i - 1, j) + 1 == d && ReachedUntied(left, right, i - 1, j))
           || (Distance(left, right, i - 1, j - 1) + 1 == d && ReachedUntied(left, right, i - 1, j - 1)))
  }

  lemma ChosenWholeEdits(add: nat, remove: nat, replace: nat)
    requires replace % 100000 + 1 < 100000
    ensures WholeEdits(Choose(add, remove, replace).0) == 1 +
              if add == remove && WholeEdits(add) < WholeEdits(replace) then WholeEdits(replace)
              else Min(WholeEdits(replace), Min(WholeEdits(remove), WholeEdits(add)))
  {
  }

  lemma CellEditsOfPath<T>(left: seq<T>, right: seq<T>, i: nat, j: nat)
    requires i <= |left| && j <= |right| && Small(left, right)
    ensures CellEdits(left, right, i, j) == Edits(Path(left, right, i, j)) >= Distance(left, right, i, j)
    ensures Cell(left, right, i, j).0 % 100000 <= Min(i, j) < 100000
  {
    var e := Path(left, right, i, j);
    CellCostIsScriptCost(left, right, i, j);
    ScriptCostSplits(e);
    PathIsScript(left, right, i, j);
    ReplacesFitBothTexts(e, left, right, i, j);
    NoScriptBeatsDistance(e, left, right, i, j);
  }

  lemma CellEditsStep<T>(left: seq<T>, right: seq<T>, i: nat, j: nat)
    requires 0 < i <= |left| && 0 < j <= |right| && Small(left, right)
    ensures CellEdits(left, right, i, j) ==
              if left[i - 1] == right[j - 1] then CellEdits(left, right, i - 1, j - 1)
              else if TiedAwayFromReplace(left, right, i, j) then 1 + CellEdits(left, right, i - 1, j - 1)
              else 1 + Min(CellEdits(left, right, i - 1, j - 1),
                           Min(CellEdits(left, right, i - 1, j), CellEdits(left, right, i, j - 1)))
  {
    if left[i - 1] != right[j - 1] {
      CellEditsOfPath(left, right, i - 1, j - 1);
      ChosenWholeEdits(Cell(left, right, i, j - 1).0, Cell(left, right, i - 1, j).0, Cell(left, right, i - 1, j - 1).0);
    }
  }

  /** A move into position (i, j) that the distance allows for. */
  lemma BestMove<T>(left: seq<T>, right: seq<T>, i: nat, j: nat) returns (m: EditType)
    requires i <= |left| && j <= |right| && (i > 0 || j > 0)
    ensures Step(m.TakesLeft()) <= i && Step(m.TakesRight()) <= j && (m == Match ==> left[i - 1] == right[j - 1])
    ensures Distance(left, right, i, j) ==
            Distance(left, right, i - Step(m.TakesLeft()), j - Step(m.TakesRight())) + Step(m != Match)
  {
    if j == 0 {
      m := Remove;
    } else if i == 0 {
      m := Add;
    } else if left[i - 1] == right[j - 1] {
      m := Match;
      DistanceNeighbours(left, right, i, j);
    } else if Distance(left, right, i, j) == Distance(left, right, i - 1, j - 1) + 1 {
      m := Replace;
    } else if Distance(left, right, i, j) == Distance(left, right, i - 1, j) + 1 {
      m := Remove;
    } else {
      m := Add;
    }
  }

  lemma {:induction false} DistanceIsAttained<T>(left: seq<T>, right: seq<T>, i: nat, j: nat) returns (e: seq<EditType>)
    requires i <= |left| && j <= |right|
    ensures Leads(e, left, right, 0, 0, i, j) && Edits(e) == Distance(left, right, i, j)
    decreases i + j
  {
    if i == 0 && j == 0 {
      return [];
    }
    hide Distance, Leads, Edits;
    var m := BestMove(left, right, i, j);
    e := DistanceIsAttained(left, right, i - Step(m.TakesLeft()), j - Step(m.TakesRight()));
    LeadsSnoc(e, m, left, right, 0, 0, i, j);
    CountsOfSnoc(e, m);
    e := e + [m];
  }

  lemma CountsOfSnoc(e: seq<EditType>, m: EditType)
    ensures Edits(e + [m]) == Edits(e) + Step(m != Match)
  {
    assert (e + [m])[..|e + [m]| - 1] == e;
  }

  lemma PathMinimalIffDistance<T>(left: seq<T>, right: seq<T>, i: nat, j: nat)
    requires i <= |left| && j <= |right| && Small(left, right)
    ensures IsMinimal(Path(left, right, i, j), left, right, i, j) <==>
            CellEdits(left, right, i, j) == Distance(left, right, i, j)
  {
    CellEditsOfPath(left, right, i, j);
    PathIsScript(left, right, i, j);
    if IsMinimal(Path(left, right, i, j), left, right, i, j) {
      var e := DistanceIsAttained(left, right, i, j);
    } else {
      var other :| Leads(other, left, right, 0, 0, i, j) && Edits(other) < Edits(Path(left, right, i, j));
      NoScriptBeatsDistance(other, left, right, i, j);
    }
  }

  /** One mismatched cell, in numbers: the path's and the reference's edit counts
      of the three neighbours, and which neighbours are reached untied. */
  lemma UntiedStep(tied: bool, add: nat, remove: nat, replace: nat, dAdd: nat, dRemove: nat, dReplace: nat)
    requires dAdd <= add && dRemove <= remove && dReplace <= replace
    requires tied ==> add < replace
    ensures (if tied then replace else Min(replace, Min(remove, add))) == Min(dReplace, Min(dRemove, dAdd)) <==>
            !tied && ( || (dAdd == Min(dReplace, Min(dRemove, dAdd)) && add == dAdd)
                       || (dRemove == Min(dReplace, Min(dRemove, dAdd)) && remove == dRemove)
                       || (dReplace == Min(dReplace, Min(dRemove, dAdd)) && replace == dReplace))
  {
  }

  lemma {:induction false} DistanceReachedIffUntied<T>(left: seq<T>, right: seq<T>, i: nat, j: nat)
    requires i <= |left| && j <= |right| && Small(left, right)
    ensures CellEdits(left, right, i, j) == Distance(left, right, i, j) <==> ReachedUntied(left, right, i, j)
    decreases i, j, 1
  {
    if i > 0 && j > 0 {
      InnerReachedIffUntied(left, right, i, j);
    }
  }

  lemma {:induction false} InnerReachedIffUntied<T>(left: seq<T>, right: seq<T>, i: nat, j: nat)
    requires 0 < i <= |left| && 0 < j <= |right| && Small(left, right)
    ensures CellEdits(left, right, i, j) == Distance(left, right, i, j) <==> ReachedUntied(left, right, i, j)
    decreases i, j, 0
  {
    hide Cell, Distance, CellEdits, TiedAwayFromReplace;
    DistanceReachedIffUntied(left, right, i - 1, j - 1);
    if left[i - 1] == right[j - 1] {
      CellEditsStep(left, right, i, j);
      DistanceNeighbours(left, right, i, j);
    } else {
      DistanceReachedIffUntied(left, right, i - 1, j);
      DistanceReachedIffUntied(left, right, i, j - 1);
      UntiedAtMismatch(left, right, i, j);
    }
  }

  lemma UntiedAtMismatch<T>(left: seq<T>, right: seq<T>, i: nat, j: nat)
    requires 0 < i <= |left| && 0 < j <= |right| && Small(left, right) && left[i - 1] != right[j - 1]
    ensures CellEdits(left, right, i, j) == Distance(left, right, i, j) <==>
            var d := Distance(left, right, i, j) - 1;
            && !TiedAwayFromReplace(left, right, i, j)
            && ( || (Distance(left, right, i, j - 1) == d && CellEdits(left, right, i, j - 1) == d)
                 || (Distance(left, right, i - 1, j) == d && CellEdits(left, right, i - 1, j) == d)
                 || (Distance(left, right, i - 1, j - 1) == d && CellEdits(left, right, i - 1, j - 1) == d))
  {
    hide Distance, Cell, Path;
    CellEditsStep(left, right, i, j);
    CellEditsOfPath(left, right, i, j - 1);
    CellEditsOfPath(left, right, i - 1, j);
    CellEditsOfPath(left, right, i - 1, j - 1);
    UntiedStep(TiedAwayFromReplace(left, right, i, j),
               CellEdits(left, right, i, j - 1), CellEdits(left, right, i - 1, j), CellEdits(left, right, i - 1, j - 1),
               Distance(left, right, i, j - 1), Distance(left, right, i - 1, j), Distance(left, right, i - 1, j - 1));
    DistanceAtMismatch(left, right, i, j);
  }

  lemma DistanceAtMismatch<T>(left: seq<T>, right: seq<T>, i: nat, j: nat)
    requires 0 < i <= |left| && 0 < j <= |right| && left[i - 1] != right[j - 1]
    ensures Distance(left, right, i, j) ==
              1 + Min(Distance(left, right, i - 1, j - 1),
                  Min(Distance(left, right, i - 1, j), Distance(left, right, i, j - 1)))
  {
  }

  /** For one pair of texts: the script has the fewest possible edits exactly
      when the end can be reached without a tie. */
  lemma MinimalExactlyWhenUntied<T>(left: seq<T>, right: seq<T>)
    requires Small(left, right)
    ensures IsMinimal(Path(left, right, |left|, |right|), left, right, |left|, |right|) <==>
            ReachedUntied(left, right, |left|, |right|)
  {
    PathMinimalIffDistance(left, right, |left|, |right|);
    DistanceReachedIffUntied(left, right, |left|, |right|);
  }

  /** For a pair of texts and all their prefixes: every script is minimal exactly
      when no cell of the table holds a tie. */
  lemma AllPrefixesMinimalExactlyWhenNoTies<T>(left: seq<T>, right: seq<T>)
    requires Small(left, right)
    ensures (forall i, j :: 0 <= i <= |left| && 0 <= j <= |right| ==>
               IsMinimal(Path(left[..i], right[..j], i, j), left[..i], right[..j], i, j)) <==>
            (forall i, j :: 0 <= i <= |left| && 0 <= j <= |right| ==> !TiedAwayFromReplace(left, right, i, j))
  {
    forall i, j | 0 <= i <= |left| && 0 <= j <= |right|
      ensures TiedAwayFromReplace(left, right, i, j) ==>
                !IsMinimal(Path(left[..i], right[..j], i, j), left[..i], right[..j], i, j)
    {
      if TiedAwayFromReplace(left, right, i, j) {
        PrefixesSuffice(left, right, i, j, i, j);
        MinimalExactlyWhenUntied(left[..i], right[..j]);
      }
    }
    if forall i, j :: 0 <= i <= |left| && 0 <= j <= |right| ==> !TiedAwayFromReplace(left, right, i, j) {
      forall i, j | 0 <= i <= |left| && 0 <= j <= |right|
        ensures IsMinimal(Path(left[..i], right[..j], i, j), left[..i], right[..j], i, j)
      {
        NoTiesReached(left, right, i, j);
        PrefixesSuffice(left, right, i, j, i, j);
        MinimalExactlyWhenUntied(left[..i], right[..j]);
      }
    }
  }

  lemma {:induction false} NoTiesReached<T>(left: seq<T>, right: seq<T>, i: nat, j: nat)
    requires i <= |left| && j <= |right|
    requires forall i, j :: 0 <= i <= |left| && 0 <= j <= |right| ==> !TiedAwayFromReplace(left, right, i, j)
    ensures ReachedUntied(left, right, i, j)
  {
    hide Cell;
    if i > 0 && j > 0 {
      NoTiesReached(left, right, i - 1, j - 1);
      NoTiesReached(left, right, i - 1, j);
      NoTiesReached(left, right, i, j - 1);
    }
  }

  /** What the table says about position (i, j) depends on the prefixes alone. */
  lemma {:induction false} PrefixesSuffice<T>(left: seq<T>, right: seq<T>, m: nat, n: nat, i: nat, j: nat)
    requires i <= m <= |left| && j <= n <= |right|
    ensures ReachedUntied(left[..m], right[..n], i, j) == ReachedUntied(left, right, i, j)
    ensures TiedAwayFromReplace(left[..m], right[..n], i, j) == TiedAwayFromReplace(left, right, i, j)
  {
    hide Distance, Cell;
    if i > 0 && j > 0 {
      PrefixesSuffice(left, right, m, n, i - 1, j - 1);
      PrefixesSuffice(left, right, m, n, i - 1, j);
      PrefixesSuffice(left, right, m, n, i, j - 1);
      SameCell(left, right, m, n, i - 1, j - 1);
      SameCell(left, right, m, n, i - 1, j);
      SameCell(left, right, m, n, i, j - 1);
      SameDistance(left, right, m, n, i, j);
      SameDistance(left, right, m, n, i - 1, j - 1);
      SameDistance(left, right, m, n, i - 1, j);
      SameDistance(left, right, m, n, i, j - 1);
    }
  }

  lemma {:induction false} SameCell<T>(left: seq<T>, right: seq<T>, m: nat, n: nat, i: nat, j: nat)
    requires i <= m <= |left| && j <= n <= |right|
    ensures Cell(left[..m], right[..n], i, j) == Cell(left, right, i, j)
  {
    if i > 0 && j > 0 {
      SameCell(left, right, m, n, i - 1, j - 1);
      SameCell(left, right, m, n, i - 1, j);
      SameCell(left, right, m, n, i, j - 1);
    }
  }

  lemma {:induction false} SameDistance<T>(left: seq<T>, right: seq<T>, m: nat, n: nat, i: nat, j: nat)
    requires i <= m <= |left| && j <= n <= |right|
    ensures Distance(left[..m], right[..n], i, j) == Distance(left, right, i, j)
  {
    if i > 0 && j > 0 {
      SameDistance(left, right, m, n, i - 1, j - 1);
      SameDistance(left, right, m, n, i - 1, j);
      SameDistance(left, right, m, n, i, j - 1);
      assert left[..m][i - 1] == left[i - 1] && right[..n][j - 1] == right[j - 1];
    }
  }

  /** The promise of a minimal script fails: "aba" and "bab" are two edits apart,
      the script replaces all three letters. */
  lemma ThreeReplacesWhereTwoEditsDo()
    ensures Path("aba", "bab", 3, 3) == [Replace, Replace, Replace]
    ensures !IsMinimal(Path("aba", "bab", 3, 3), "aba", "bab", 3, 3)
  {
    var l, r := "aba", "bab";
    assert Cell(l, r, 1, 1) == (100001, Replace);
    assert Cell(l, r, 1, 2) == (100000, Match);
    assert Cell(l, r, 2, 1) == (100000, Match);
    assert Cell(l, r, 2, 2) == (200002, Replace);
    assert Cell(l, r, 2, 3) == (100000, Match);
    assert Cell(l, r, 3, 2) == (100000, Match);
    assert Cell(l, r, 3, 3) == (300003, Replace);
    assert Path(l, r, 1, 1) == [Replace];
    assert Path(l, r, 2, 2) == [Replace, Replace];
    MinimalExactlyWhenUntied(l, r);
  }

  /** Equal texts are matched element by element. */
  lemma {:induction false} EqualTextsMatch<T>(text: seq<T>, i: nat)
    requires i <= |text|
    ensures var e := Path(text, text, i, i); |e| == i && forall k :: 0 <= k < i ==> e[k] == Match
  {
    if i > 0 {
      EqualTextsMatch(text, i - 1);
      PathStep(text, text, i, i);
    }
  }

  // ----- When the script is the cheapest -----

  /** The recurrence with the surcharge of a unit for each replacement. */
  ghost function Cheapest<T>(left: seq<T>, right: seq<T>, i: nat, j: nat): nat
    requires i <= |left| && j <= |right|
  {
    if i == 0 || j == 0 then Units(i + j)
    else
      Min(Cheapest(left, right, i - 1, j - 1) + MoveCost(if left[i - 1] == right[j - 1] then Match else Replace),
          Min(Cheapest(left, right, i - 1, j), Cheapest(left, right, i, j - 1)) + Units(1))
  }

  /** No script for both texts costs less. */
  ghost predicate IsCheapest<T>(e: seq<EditType>, left: seq<T>, right: seq<T>) {
    IsScript(e, left, right) && forall other :: IsScript(other, left, right) ==> ScriptCost(e) <= ScriptCost(other)
  }

  ghost function MoveCost(m: EditType): nat {
    Units(Step(m != Match)) + Step(m == Replace)
  }

  lemma {:induction false} NoScriptIsCheaper<T>(e: seq<EditType>, left: seq<T>, right: seq<T>, i: nat, j: nat)
    requires i <= |left| && j <= |right| && Leads(e, left, right, 0, 0, i, j)
    ensures ScriptCost(e) >= Cheapest(left, right, i, j)
  {
    if e != [] {
      var rest, m := e[..|e| - 1], e[|e| - 1];
      assert e == rest + [m];
      LeadsSnoc(rest, m, left, right, 0, 0, i, j);
      ScriptCostSnoc(rest, m);
      hide Leads, ScriptCost, Cheapest;
      NoScriptIsCheaper(rest, left, right, i - Step(m.TakesLeft()), j - Step(m.TakesRight()));
      CheapestAfter(m, left, right, i, j);
    }
  }

  /** A move costs no less than what the recurrence allows for. */
  lemma CheapestAfter<T>(m: EditType, left: seq<T>, right: seq<T>, i: nat, j: nat)
    requires Step(m.TakesLeft()) <= i <= |left| && Step(m.TakesRight()) <= j <= |right|
    requires m == Match ==> left[i - 1] == right[j - 1]
    ensures Cheapest(left, right, i, j) <=
            Cheapest(left, right, i - Step(m.TakesLeft()), j - Step(m.TakesRight())) + MoveCost(m)
  {
  }

  /** The cost of one position from those of its neighbours. */
  lemma CheapestAt<T>(left: seq<T>, right: seq<T>, i: nat, j: nat)
    requires 0 < i <= |left| && 0 < j <= |right|
    ensures var diagonal := if left[i - 1] == right[j - 1] then 0 else MoveCost(Replace);
            Cheapest(left, right, i, j) ==
            Min(Cheapest(left, right, i - 1, j - 1) + diagonal,
                Min(Cheapest(left, right, i - 1, j), Cheapest(left, right, i, j - 1)) + Units(1))
  {
    hide Step;
    assert MoveCost(Match) == 0 by { MatchIsFree(); }
  }

  lemma MatchIsFree()
    ensures MoveCost(Match) == 0
  {
  }

  lemma CheapestAtBorder<T>(left: seq<T>, right: seq<T>, i: nat, j: nat)
    requires i <= |left| && j <= |right| && (i == 0 || j == 0)
    ensures Cheapest(left, right, i, j) == Units(i + j)
    ensures i > 0 ==> Cheapest(left, right, i, j) == Cheapest(left, right, i - 1, j) + Units(1)
    ensures j > 0 ==> Cheapest(left, right, i, j) == Cheapest(left, right, i, j - 1) + Units(1)
  {
  }

  lemma CheapestGrows<T>(left: seq<T>, right: seq<T>, i: nat, j: nat)
    requires i <= |left| && j <= |right|
    ensures i > 0 ==> Cheapest(left, right, i, j) <= Cheapest(left, right, i - 1, j) + Units(1)
    ensures j > 0 ==> Cheapest(left, right, i, j) <= Cheapest(left, right, i, j - 1) + Units(1)
  {
    hide Cheapest, Units, MoveCost;
    if i > 0 && j > 0 {
      CheapestAt(left, right, i, j);
    } else {
      CheapestAtBorder(left, right, i, j);
    }
  }

  lemma {:induction false} CheapestNeighbours<T>(left: seq<T>, right: seq<T>, i: nat, j: nat)
    requires i <= |left| && j <= |right|
    ensures i > 0 ==> Cheapest(left, right, i - 1, j) <= Cheapest(left, right, i, j) + Units(1)
    ensures j > 0 ==> Cheapest(left, right, i, j - 1) <= Cheapest(left, right, i, j) + Units(1)
    ensures i > 0 && j > 0 ==> Cheapest(left, right, i - 1, j - 1) <= Cheapest(left, right, i, j)
    ensures i > 0 && j > 0 && left[i - 1] == right[j - 1] ==>
              Cheapest(left, right, i, j) == Cheapest(left, right, i - 1, j - 1)
  {
    hide Cheapest, Units, MoveCost;
    if i > 0 && j > 0 {
      CheapestNeighbours(left, right, i - 1, j);
      CheapestNeighbours(left, right, i, j - 1);
      CheapestGrows(left, right, i - 1, j);
      CheapestGrows(left, right, i, j - 1);
      CheapestAt(left, right, i, j);
    } else {
      CheapestAtBorder(left, right, i, j);
    }
  }

  lemma CheapestMove<T>(left: seq<T>, right: seq<T>, i: nat, j: nat) returns (m: EditType)
    requires i <= |left| && j <= |right| && (i > 0 || j > 0)
    ensures Step(m.TakesLeft()) <= i && Step(m.TakesRight()) <= j && (m == Match ==> left[i - 1] == right[j - 1])
    ensures Cheapest(left, right, i, j) ==
            Cheapest(left, right, i - Step(m.TakesLeft()), j - Step(m.TakesRight())) + MoveCost(m)
  {
    if j == 0 {
      m := Remove;
    } else if i == 0 {
      m := Add;
    } else if left[i - 1] == right[j - 1] {
      m := Match;
      CheapestNeighbours(left, right, i, j);
    } else if Cheapest(left, right, i, j) == Cheapest(left, right, i - 1, j - 1) + MoveCost(Replace) {
      m := Replace;
    } else if Cheapest(left, right, i, j) == Cheapest(left, right, i - 1, j) + Units(1) {
      m := Remove;
    } else {
      m := Add;
    }
  }

  lemma {:induction false} CheapestIsAttained<T>(left: seq<T>, right: seq<T>, i: nat, j: nat) returns (e: seq<EditType>)
    requires i <= |left| && j <= |right|
    ensures Leads(e, left, right, 0, 0, i, j) && ScriptCost(e) == Cheapest(left, right, i, j)
    decreases i + j
  {
    if i == 0 && j == 0 {
      return [];
    }
    hide Cheapest, Leads, ScriptCost;
    var m := CheapestMove(left, right, i, j);
    e := CheapestIsAttained(left, right, i - Step(m.TakesLeft()), j - Step(m.TakesRight()));
    LeadsSnoc(e, m, left, right, 0, 0, i, j);
    ScriptCostSnoc(e, m);
    e := e + [m];
  }

  /** A replacement is chosen though an addition or removal costs less: because the two
      tie, or because one of them is not below the replacement before its surcharge. */
  ghost predicate TieIsReplaced<T>(left: seq<T>, right: seq<T>, i: nat, j: nat)
    requires i <= |left| && j <= |right|
  {
    && i > 0 && j > 0 && left[i - 1] != right[j - 1]
    && var add, remove, replace :=
         Cell(left, right, i, j - 1).0, Cell(left, right, i - 1, j).0, Cell(left, right, i - 1, j - 1).0;
       Min(add, remove) <= replace && (add == remove || Min(add, remove) == replace)
  }

  /** Position (i, j) can be reached by moves of the recurrence with surcharges that take
      every match and avoid all ties. */
  ghost predicate ReachedCheaply<T>(left: seq<T>, right: seq<T>, i: nat, j: nat)
    requires i <= |left| && j <= |right|
  {
    if i == 0 || j == 0 then true
    else if left[i - 1] == right[j - 1] then ReachedCheaply(left, right, i - 1, j - 1)
    else
      var c := Cheapest(left, right, i, j);
      && !TieIsReplaced(left, right, i, j)
      && ( || (Cheapest(left, right, i, j - 1) + Units(1) == c && ReachedCheaply(left, right, i, j - 1))
           || (Cheapest(left, right, i - 1, j) + Units(1) == c && ReachedCheaply(left, right, i - 1, j))
           || (Cheapest(left, right, i - 1, j - 1) + MoveCost(Replace) == c
               && ReachedCheaply(left, right, i - 1, j - 1)))
  }

  lemma CellNotBelowCheapest<T>(left: seq<T>, right: seq<T>, i: nat, j: nat)
    requires i <= |left| && j <= |right|
    ensures Cell(left, right, i, j).0 >= Cheapest(left, right, i, j)
  {
    hide Cell, Path, ScriptCost, Cheapest;
    CellCostIsScriptCost(left, right, i, j);
    PathIsScript(left, right, i, j);
    NoScriptIsCheaper(Path(left, right, i, j), left, right, i, j);
  }

  /** One mismatched cell, in numbers: the chosen cost is the least one that the neighbours
      allow for exactly if there is no tie and a neighbour that the least one comes from
      costs as little as it can. */
  lemma CheapStep(add: nat, remove: nat, replace: nat, cAdd: nat, cRemove: nat, cReplace: nat)
    requires cAdd <= add && cRemove <= remove && cReplace <= replace
    ensures var c := Min(cReplace + MoveCost(Replace), Min(cRemove, cAdd) + Units(1));
            Choose(add, remove, replace).0 == c <==>
            && !(Min(add, remove) <= replace && (add == remove || Min(add, remove) == replace))
            && ( || (cAdd + Units(1) == c && add == cAdd)
                 || (cRemove + Units(1) == c && remove == cRemove)
                 || (cReplace + MoveCost(Replace) == c && replace == cReplace))
  {
  }

  lemma CheapAtMismatch<T>(left: seq<T>, right: seq<T>, i: nat, j: nat)
    requires 0 < i <= |left| && 0 < j <= |right| && left[i - 1] != right[j - 1]
    ensures var c := Cheapest(left, right, i, j);
            Cell(left, right, i, j).0 == c <==>
            && !TieIsReplaced(left, right, i, j)
            && ( || (Cheapest(left, right, i, j - 1) + Units(1) == c
                     && Cell(left, right, i, j - 1).0 == Cheapest(left, right, i, j - 1))
                 || (Cheapest(left, right, i - 1, j) + Units(1) == c
                     && Cell(left, right, i - 1, j).0 == Cheapest(left, right, i - 1, j))
                 || (Cheapest(left, right, i - 1, j - 1) + MoveCost(Replace) == c
                     && Cell(left, right, i - 1, j - 1).0 == Cheapest(left, right, i - 1, j - 1)))
  {
    hide Cell, Cheapest, Choose, MoveCost, Units;
    CellNotBelowCheapest(left, right, i - 1, j - 1);
    CellNotBelowCheapest(left, right, i - 1, j);
    CellNotBelowCheapest(left, right, i, j - 1);
    InnerCell(left, right, i, j);
    CheapestAt(left, right, i, j);
    CheapStep(Cell(left, right, i, j - 1).0, Cell(left, right, i - 1, j).0, Cell(left, right, i - 1, j - 1).0,
              Cheapest(left, right, i, j - 1), Cheapest(left, right, i - 1, j), Cheapest(left, right, i - 1, j - 1));
  }

  lemma {:induction false} CheapestReachedIff<T>(left: seq<T>, right: seq<T>, i: nat, j: nat)
    requires i <= |left| && j <= |right|
    ensures Cell(left, right, i, j).0 == Cheapest(left, right, i, j) <==> ReachedCheaply(left, right, i, j)
  {
    hide Cell, Cheapest, TieIsReplaced, MoveCost, Units;
    if i == 0 || j == 0 {
      BorderCell(left, right, i, j);
      CheapestAtBorder(left, right, i, j);
    } else if left[i - 1] == right[j - 1] {
      CheapestReachedIff(left, right, i - 1, j - 1);
      InnerCell(left, right, i, j);
      CheapestNeighbours(left, right, i, j);
    } else {
      CheapestReachedIff(left, right, i - 1, j - 1);
      CheapestReachedIff(left, right, i - 1, j);
      CheapestReachedIff(left, right, i, j - 1);
      CheapAtMismatch(left, right, i, j);
    }
  }

  /** No script costs less exactly when the end can be reached without a tie; this holds
      for texts of any length. */
  lemma CheapestExactlyWhenUntied<T>(left: seq<T>, right: seq<T>)
    ensures IsCheapest(Path(left, right, |left|, |right|), left, right) <==>
            ReachedCheaply(left, right, |left|, |right|)
  {
    hide Cell, Path, ScriptCost, Cheapest, Leads, ReachedCheaply;
    var cheap := CheapestIsAttained(left, right, |left|, |right|);
    assert IsScript(cheap, left, right);
    forall other | IsScript(other, left, right)
      ensures ScriptCost(other) >= Cheapest(left, right, |left|, |right|)
    {
      NoScriptIsCheaper(other, left, right, |left|, |right|);
    }
    CellCostIsScriptCost(left, right, |left|, |right|);
    PathIsScript(left, right, |left|, |right|);
    CellNotBelowCheapest(left, right, |left|, |right|);
    CheapestReachedIff(left, right, |left|, |right|);
  }

  /** To cost less is to have fewer edits, or as many and fewer replacements. */
  lemma CostOrdersScripts<T>(e: seq<EditType>, other: seq<EditType>, left: seq<T>, right: seq<T>)
    requires Small(left, right) && IsScript(e, left, right) && IsScript(other, left, right)
    ensures ScriptCost(e) <= ScriptCost(other) <==>
            Edits(e) < Edits(other) || (Edits(e) == Edits(other) && Replaces(e) <= Replaces(other))
  {
    hide Leads, Edits, Replaces, ScriptCost;
    ScriptCostSplits(e);
    ScriptCostSplits(other);
    ReplacesFitBothTexts(e, left, right, |left|, |right|);
    ReplacesFitBothTexts(other, left, right, |left|, |right|);
  }

  /** Additions and removals are what makes the two positions differ. */
  lemma {:induction false} ScriptParity<T>(e: seq<EditType>, left: seq<T>, right: seq<T>, i: nat, j: nat)
    requires i <= |left| && j <= |right| && Leads(e, left, right, 0, 0, i, j)
    ensures (Edits(e) + Replaces(e) + i + j) % 2 == 0
  {
    if e != [] {
      var rest, m := e[..|e| - 1], e[|e| - 1];
      assert e == rest + [m];
      LeadsSnoc(rest, m, left, right, 0, 0, i, j);
      ScriptParity(rest, left, right, i - Step(m.TakesLeft()), j - Step(m.TakesRight()));
      hide Leads;
    }
  }

  /** Scripts to neighbouring positions never cost the same. */
  lemma NeighboursDiffer<T>(left: seq<T>, right: seq<T>, i: nat, j: nat, i2: nat, j2: nat)
    requires i <= |left| && j <= |right| && i2 <= |left| && j2 <= |right| && Small(left, right)
    requires (i + j + i2 + j2) % 2 == 1
    ensures Cell(left, right, i, j).0 != Cell(left, right, i2, j2).0
  {
    hide Cell, Path, Leads, Edits, Replaces, ScriptCost;
    var e, e2 := Path(left, right, i, j), Path(left, right, i2, j2);
    CellCostIsScriptCost(left, right, i, j);
    CellCostIsScriptCost(left, right, i2, j2);
    ScriptCostSplits(e);
    ScriptCostSplits(e2);
    PathIsScript(left, right, i, j);
    PathIsScript(left, right, i2, j2);
    ReplacesFitBothTexts(e, left, right, i, j);
    ReplacesFitBothTexts(e2, left, right, i2, j2);
    ScriptParity(e, left, right, i, j);
    ScriptParity(e2, left, right, i2, j2);
    SameCostSameParts(Edits(e), Replaces(e), Edits(e2), Replaces(e2));
  }

  lemma SameCostSameParts(edits: nat, swaps: nat, edits2: nat, swaps2: nat)
    requires swaps < Units(1) && swaps2 < Units(1)
    ensures Units(edits) + swaps == Units(edits2) + swaps2 ==> edits == edits2 && swaps == swaps2
  {
  }

  /** So it is the tie of addition and removal below the replacement, and nothing else. */
  lemma OnlyAddAndRemoveTie<T>(left: seq<T>, right: seq<T>, i: nat, j: nat)
    requires 0 < i <= |left| && 0 < j <= |right| && Small(left, right)
    ensures TieIsReplaced(left, right, i, j) <==>
            && left[i - 1] != right[j - 1]
            && Cell(left, right, i, j - 1).0 == Cell(left, right, i - 1, j).0 < Cell(left, right, i - 1, j - 1).0
  {
    hide Cell;
    NeighboursDiffer(left, right, i, j - 1, i - 1, j - 1);
    NeighboursDiffer(left, right, i - 1, j, i - 1, j - 1);
  }

  /** The common letter of "ab" and "bc" is kept, though two replacements are no more edits. */
  lemma CommonLetterIsKept()
    ensures Path("ab", "bc", 2, 2) == [Remove, Match, Add]
  {
    var l, r := "ab", "bc";
    assert Cell(l, r, 1, 1) == (100001, Replace);
    assert Cell(l, r, 2, 1) == (100000, Match);
    assert Cell(l, r, 1, 2).0 > 100000;
    assert Cell(l, r, 2, 2) == (200000, Add);
    assert Path(l, r, 1, 0) == [Remove];
    assert Path(l, r, 2, 1) == [Remove, Match];
  }

  // ----- How far from minimal -----

  lemma {:induction false} CellEditsBound<T>(left: seq<T>, right: seq<T>, i: nat, j: nat)
    requires i <= |left| && j <= |right| && Small(left, right)
    ensures CellEdits(left, right, i, j) <= if i <= j then j else i
  {
    hide Cell, CellEdits, TiedAwayFromReplace;
    if i > 0 && j > 0 {
      CellEditsBound(left, right, i - 1, j - 1);
      CellEditsStep(left, right, i, j);
    } else {
      CellEditsAtBorder(left, right, i, j);
    }
  }

  lemma CellEditsAtBorder<T>(left: seq<T>, right: seq<T>, i: nat, j: nat)
    requires i <= |left| && j <= |right| && (i == 0 || j == 0)
    ensures CellEdits(left, right, i, j) == i + j
  {
  }

  /** No script has more edits than the longer text has elements. */
  lemma NeverMoreThanLonger<T>(left: seq<T>, right: seq<T>, i: nat, j: nat)
    requires i <= |left| && j <= |right| && Small(left, right)
    ensures Edits(Path(left, right, i, j)) <= if i <= j then j else i
  {
    hide Cell, CellEdits, Path, Edits;
    CellEditsBound(left, right, i, j);
    CellEditsOfPath(left, right, i, j);
  }

  /** Each element differs from the one opposite, and equals the neighbours of that one. */
  ghost predicate Crossed<T>(left: seq<T>, right: seq<T>) {
    && |left| == |right|
    && (forall k :: 0 <= k < |left| ==> left[k] != right[k])
    && (forall k :: 0 < k < |left| ==> left[k - 1] == right[k] && left[k] == right[k - 1])
  }

  lemma {:induction false} CrossedCells<T>(left: seq<T>, right: seq<T>, i: nat)
    requires Crossed(left, right) && i <= |left|
    ensures Cell(left, right, i, i).0 == 100001 * i && (i > 0 ==> Cell(left, right, i, i).1 == Replace)
    ensures i < |left| ==> Cell(left, right, i, i + 1).0 == Cell(left, right, i + 1, i).0 == 100000
    ensures i < |left| ==> Distance(left, right, i, i + 1) <= 1
  {
    if i > 0 {
      CrossedCells(left, right, i - 1);
    }
  }

  ghost predicate ReplacesAll(e: seq<EditType>, n: nat) {
    e == seq(n, _ => Replace) && Edits(e) == n
  }

  lemma ReplacesOneMore(e: seq<EditType>, n: nat)
    requires ReplacesAll(e, n)
    ensures ReplacesAll(e + [Replace], n + 1)
  {
    hide Edits;
    CountsOfSnoc(e, Replace);
  }

  lemma {:induction false} CrossedPath<T>(left: seq<T>, right: seq<T>, i: nat)
    requires Crossed(left, right) && i <= |left|
    ensures ReplacesAll(Path(left, right, i, i), i)
  {
    if i == 0 {
      assert Path(left, right, 0, 0) == [];
    } else {
      hide Crossed, Cell, Path, ReplacesAll;
      CrossedCells(left, right, i);
      CrossedPath(left, right, i - 1);
      PathStep(left, right, i, i);
      ReplacesOneMore(Path(left, right, i - 1, i - 1), i - 1);
    }
  }

  /** Such texts of any length: two edits would turn one into the other, and the script
      replaces every element, which is as many edits as a script can have. */
  lemma CrossedTextsAreReplaced<T>(left: seq<T>, right: seq<T>) returns (short: seq<EditType>)
    requires Crossed(left, right)
    ensures ReplacesAll(Path(left, right, |left|, |right|), |left|)
    ensures IsScript(short, left, right) && Edits(short) <= 2
  {
    hide Cell, Path, Edits, ReplacesAll;
    var n := |left|;
    CrossedPath(left, right, n);
    if n > 0 {
      CrossedCells(left, right, n - 1);
      DistanceNeighbours(left, right, n - 1, n);
    }
    assert Distance(left, right, n, n) <= 2;
    hide Distance, Crossed;
    short := DistanceIsAttained(left, right, n, n);
  }

  /** There are such texts of every length. */
  lemma AlternatingIsCrossed(n: nat)
    ensures Crossed(seq(n, k => k % 2), seq(n, k => (k + 1) % 2))
  {
    var left, right := seq(n, k => k % 2), seq(n, k => (k + 1) % 2);
    forall k | 0 <= k < n
      ensures left[k] != right[k] && (k > 0 ==> left[k - 1] == right[k] && left[k] == right[k - 1])
    {
      assert left[k] == k % 2 && right[k] == (k + 1) % 2;
      assert k > 0 ==> left[k - 1] == (k - 1) % 2 && right[k - 1] == k % 2;
    }
  }

  // ----- The algorithm -----

  /** Both tables are filled in the first column, in all rows up to `l`, and in
      row `l + 1` up to column `r`. */
  ghost predicate Filled<T>(costs: array2<nat>, bestMove: array2<EditType>, left: seq<T>, right: seq<T>, l: int, r: int)
    requires costs.Length0 == bestMove.Length0 == |left| + 1 && costs.Length1 == bestMove.Length1 == |right| + 1
    reads costs, bestMove
  {
    forall i, j {:trigger costs[i, j]} {:trigger bestMove[i, j]} ::
      0 <= i <= |left| && 0 <= j <= |right| && (i <= l || j == 0 || (i == l + 1 && j <= r)) ==>
        (costs[i, j], bestMove[i, j]) == Cell(left, right, i, j)
  }

  method CalculateOptimalEdits<T(==)>(left: seq<T>, right: seq<T>) returns (edits: seq<EditType>)
    ensures edits == Path(left, right, |left|, |right|)
    ensures IsScript(edits, left, right) && Output(edits, left, right, 0, 0) == right
    ensures Small(left, right) ==>
              (IsMinimal(edits, left, right, |left|, |right|) <==> ReachedUntied(left, right, |left|, |right|))
    ensures IsCheapest(edits, left, right) <==> ReachedCheaply(left, right, |left|, |right|)
  {
    var costs := new nat[|left| + 1, |right| + 1];
    var bestMove := new EditType[|left| + 1, |right| + 1];
    FillBorders(left, right, costs, bestMove);
    for l := 0 to |left|
      invariant Filled(costs, bestMove, left, right, l, 0)
    {
      FillRow(left, right, l, costs, bestMove);
    }
    edits := ReconstructPath(left, right, costs, bestMove);
    PathIsScript(left, right, |left|, |right|);
    ScriptTurnsLeftIntoRight(edits, left, right, 0, 0);
    CheapestExactlyWhenUntied(left, right);
    if Small(left, right) {
      MinimalExactlyWhenUntied(left, right);
    }
  }

  method FillBorders<T>(left: seq<T>, right: seq<T>, costs: array2<nat>, bestMove: array2<EditType>)
    requires costs.Length0 == bestMove.Length0 == |left| + 1 && costs.Length1 == bestMove.Length1 == |right| + 1
    modifies costs, bestMove
    ensures Filled(costs, bestMove, left, right, 0, 0)
  {
    for l := 0 to costs.Length0
      invariant forall i :: 0 <= i < l ==> costs[i, 0] == Units(i) && bestMove[i, 0] == Remove
    {
      costs[l, 0] := Units(l);
      bestMove[l, 0] := Remove;
    }
    for r := 1 to costs.Length1
      invariant forall i :: 0 <= i <= |left| ==> costs[i, 0] == Units(i) && bestMove[i, 0] == Remove
      invariant forall j :: 1 <= j < r ==> costs[0, j] == Units(j) && bestMove[0, j] == Add
    {
      costs[0, r] := Units(r);
      bestMove[0, r] := Add;
    }
  }

  method FillRow<T(==)>(left: seq<T>, right: seq<T>, l: nat, costs: array2<nat>, bestMove: array2<EditType>)
    requires costs.Length0 == bestMove.Length0 == |left| + 1 && costs.Length1 == bestMove.Length1 == |right| + 1
    requires l < |left| && Filled(costs, bestMove, left, right, l, 0)
    modifies costs, bestMove
    ensures Filled(costs, bestMove, left, right, l + 1, 0)
  {
    hide Cell;
    for r := 0 to |right|
      invariant Filled(costs, bestMove, left, right, l, r)
    {
      InnerCell(left, right, l + 1, r + 1);
      if left[l] == right[r] {
        costs[l + 1, r + 1] := costs[l, r];
        bestMove[l + 1, r + 1] := Match;
        continue;
      }
      var add := costs[l + 1, r];
      var remove := costs[l, r + 1];
      var replace := costs[l, r];
      if add < remove && add < replace {
        costs[l + 1, r + 1] := add + Units(1);
        bestMove[l + 1, r + 1] := Add;
      } else if remove < add && remove < replace {
        costs[l + 1, r + 1] := remove + Units(1);
        bestMove[l + 1, r + 1] := Remove;
      } else {
        costs[l + 1, r + 1] := replace + Units(1) + 1;
        bestMove[l + 1, r + 1] := Replace;
      }
    }
  }

  lemma InnerCell<T>(left: seq<T>, right: seq<T>, i: nat, j: nat)
    requires 0 < i <= |left| && 0 < j <= |right|
    ensures Cell(left, right, i, j) ==
              if left[i - 1] == right[j - 1] then (Cell(left, right, i - 1, j - 1).0, Match)
              else Choose(Cell(left, right, i, j - 1).0, Cell(left, right, i - 1, j).0,
                  Cell(left, right, i - 1, j - 1).0)
  {
  }

  lemma BorderCell<T>(left: seq<T>, right: seq<T>, i: nat, j: nat)
    requires i <= |left| && j <= |right| && (i == 0 || j == 0)
    ensures Cell(left, right, i, j) == if j == 0 then (Units(i), Remove) else (Units(j), Add)
  {
  }

  method ReconstructPath<T>(left: seq<T>, right: seq<T>, costs: array2<nat>, bestMove: array2<EditType>)
    returns (path: seq<EditType>)
    requires costs.Length0 == bestMove.Length0 == |left| + 1 && costs.Length1 == bestMove.Length1 == |right| + 1
    requires Filled(costs, bestMove, left, right, |left|, 0)
    ensures path == Path(left, right, |left|, |right|)
  {
    hide Cell;
    var bestPath := [];
    var l, r := |left|, |right|;
    while l > 0 || r > 0
      invariant 0 <= l <= |left| && 0 <= r <= |right|
      invariant Path(left, right, |left|, |right|) == Path(left, right, l, r) + Reverse(bestPath)
      decreases l + r
    {
      var move := bestMove[l, r];
      assert (costs[l, r], move) == Cell(left, right, l, r);
      CellCost(left, right, l, r);
      ReverseSnoc(bestPath, move);
      bestPath := bestPath + [move];
      l := l - Step(move != Add);
      r := r - Step(move != Remove);
    }
    path := Reverse(bestPath);
  }

  function Reverse<T>(s: seq<T>): seq<T> {
    if s == [] then [] else [s[|s| - 1]] + Reverse(s[..|s| - 1])
  }

  lemma ReverseSnoc<T>(s: seq<T>, x: T)
    ensures Reverse(s + [x]) == [x] + Reverse(s)
  {
    assert (s + [x])[..|s|] == s;
  }

  // ----- The same for texts made of strings -----

  /** Numbers strings in order of first appearance. */
  class InternalStrings {
    var ids: map<string, nat>

    ghost predicate Valid()
      reads this
    {
      && (forall s :: s in ids ==> ids[s] < |ids|)
      && (forall s, t :: s in ids && t in ids && ids[s] == ids[t] ==> s == t)
    }

    constructor ()
      ensures Valid() && ids == map[]
    {
      ids := map[];
    }

    method GetId(str: string) returns (id: nat)
      requires Valid()
      modifies this
      ensures Valid()
      ensures ids == if str in old(ids) then old(ids) else old(ids)[str := |old(ids)|]
      ensures str in ids && id == ids[str]
    {
      if str in ids {
        return ids[str];
      }
      id := |ids|;
      ids := ids[str := id];
    }
  }

  method InternAll(text: seq<string>, table: InternalStrings) returns (numbers: seq<nat>)
    requires table.Valid()
    modifies table
    ensures table.Valid()
    ensures forall s :: s in old(table.ids) ==> s in table.ids && table.ids[s] == old(table.ids)[s]
    ensures |numbers| == |text|
    ensures forall k :: 0 <= k < |text| ==> text[k] in table.ids && numbers[k] == table.ids[text[k]]
  {
    numbers := [];
    for i := 0 to |text|
      invariant table.Valid()
      invariant forall s :: s in old(table.ids) ==> s in table.ids && table.ids[s] == old(table.ids)[s]
      invariant |numbers| == i
      invariant forall k :: 0 <= k < i ==> text[k] in table.ids && numbers[k] == table.ids[text[k]]
    {
      var id := table.GetId(text[i]);
      numbers := numbers + [id];
    }
  }

  method CalculateOptimalEditsOfStrings(left: seq<string>, right: seq<string>) returns (edits: seq<EditType>)
    ensures edits == Path(left, right, |left|, |right|)
    ensures IsScript(edits, left, right) && Output(edits, left, right, 0, 0) == right
    ensures Small(left, right) ==>
              (IsMinimal(edits, left, right, |left|, |right|) <==> ReachedUntied(left, right, |left|, |right|))
    ensures IsCheapest(edits, left, right) <==> ReachedCheaply(left, right, |left|, |right|)
  {
    var table := new InternalStrings();
    var leftIds := InternAll(left, table);
    var rightIds := InternAll(right, table);
    edits := CalculateOptimalEdits(leftIds, rightIds);
    PathKnowsOnlyEquality(leftIds, rightIds, left, right, |left|, |right|);
    PathIsScript(left, right, |left|, |right|);
    ScriptTurnsLeftIntoRight(edits, left, right, 0, 0);
    CheapestExactlyWhenUntied(left, right);
    if Small(left, right) {
      MinimalExactlyWhenUntied(left, right);
    }
  }

  /** Two pairs of texts are equal in the same places. */
  ghost predicate EqualInSamePlaces<S, T>(left: seq<S>, right: seq<S>, left': seq<T>, right': seq<T>) {
    && |left| == |left'| && |right| == |right'|
    && forall k, l :: 0 <= k < |left| && 0 <= l < |right| ==> (left[k] == right[l] <==> left'[k] == right'[l])
  }

  lemma EqualAt<S, T>(left: seq<S>, right: seq<S>, left': seq<T>, right': seq<T>, k: nat, l: nat)
    requires EqualInSamePlaces(left, right, left', right') && k < |left| && l < |right|
    ensures |left| == |left'| && |right| == |right'| && (left[k] == right[l] <==> left'[k] == right'[l])
  {
  }

  lemma SameLengths<S, T>(left: seq<S>, right: seq<S>, left': seq<T>, right': seq<T>)
    requires EqualInSamePlaces(left, right, left', right')
    ensures |left| == |left'| && |right| == |right'|
  {
  }

  lemma NoPath<T>(left: seq<T>, right: seq<T>)
    ensures Path(left, right, 0, 0) == []
  {
  }

  /** Texts that are equal in the same places get the same script. */
  lemma {:induction false} PathKnowsOnlyEquality<S, T>(left: seq<S>, right: seq<S>, left': seq<T>, right': seq<T>,
                                                       i: nat, j: nat)
    requires EqualInSamePlaces(left, right, left', right') && i <= |left| && j <= |right|
    ensures Path(left, right, i, j) == Path(left', right', i, j)
    decreases i + j
  {
    hide Cell, Path, EqualInSamePlaces;
    SameLengths(left, right, left', right');
    CellKnowsOnlyEquality(left, right, left', right', i, j);
    if i == 0 && j == 0 {
      NoPath(left, right);
      NoPath(left', right');
    } else {
      PathStep(left, right, i, j);
      PathStep(left', right', i, j);
      var move := Cell(left, right, i, j).1;
      PathKnowsOnlyEquality(left, right, left', right', i - Step(move.TakesLeft()), j - Step(move.TakesRight()));
    }
  }

  lemma {:induction false} CellKnowsOnlyEquality<S, T>(left: seq<S>, right: seq<S>, left': seq<T>, right': seq<T>,
                                                       i: nat, j: nat)
    requires EqualInSamePlaces(left, right, left', right') && i <= |left| && j <= |right|
    ensures Cell(left, right, i, j) == Cell(left', right', i, j)
  {
    hide Cell, Choose;
    if i == 0 || j == 0 {
      BorderCell(left, right, i, j);
      BorderCell(left', right', i, j);
    } else {
      CellKnowsOnlyEquality(left, right, left', right', i - 1, j - 1);
      CellKnowsOnlyEquality(left, right, left', right', i - 1, j);
      CellKnowsOnlyEquality(left, right, left', right', i, j - 1);
      EqualAt(left, right, left', right', i - 1, j - 1);
      InnerCell(left, right, i, j);
      InnerCell(left', right', i, j);
    }
  }
}
