/** The salesrep's territory: the area directory, the rep's area names and
    SQL filter, and the phrase naming the areas in the report. */
module Areas {
  import opened Text
  import opened Records

  /** The area directory: area id to trimmed area name. */
  type AreaMap = map<int, string>

  /** The directory that storing each row's trimmed name under its id, row by
      row, leaves behind. */
  function AreaMapOf(rows: seq<AreaRow>): AreaMap {
    if rows == [] then map[]
    else
      var last := rows[|rows| - 1];
      AreaMapOf(rows[..|rows| - 1])[last.areaID := TrimSpace(last.areaName)]
  }

  /** Builds the directory from the rows of tbl_area, one row at a time. */
  method BuildAreaMap(rows: seq<AreaRow>) returns (areaMap: AreaMap)
    ensures areaMap == AreaMapOf(rows)
  {
    areaMap := map[];
    var i := 0;
    while i < |rows|
      invariant 0 <= i <= |rows|
      invariant areaMap == AreaMapOf(rows[..i])
    {
      AreaMapStep(rows, i);
      areaMap := areaMap[rows[i].areaID := TrimSpace(rows[i].areaName)];
      i := i + 1;
    }
    assert rows[..i] == rows;
  }

  /** One more row stored in the directory. */
  lemma AreaMapStep(rows: seq<AreaRow>, i: nat)
    requires i < |rows|
    ensures AreaMapOf(rows[..i + 1]) == AreaMapOf(rows[..i])[rows[i].areaID := TrimSpace(rows[i].areaName)]
  {
    assert rows[..i + 1][..i] == rows[..i];
  }

  /** One row appended to the table: its trimmed name stored under its id. */
  lemma AreaMapSnoc(rows: seq<AreaRow>, row: AreaRow)
    ensures AreaMapOf(rows + [row]) == AreaMapOf(rows)[row.areaID := TrimSpace(row.areaName)]
  {
    assert (rows + [row])[..|rows|] == rows;
  }

  /** An id is in the directory exactly when some row carries it. */
  lemma {:induction false} AreaMapKeys(rows: seq<AreaRow>)
    ensures forall id :: id in AreaMapOf(rows) <==> exists i :: 0 <= i < |rows| && rows[i].areaID == id
  {
    if rows != [] {
      var init := rows[..|rows| - 1];
      AreaMapKeys(init);
      forall id | id in AreaMapOf(rows)
        ensures exists i :: 0 <= i < |rows| && rows[i].areaID == id
      {
        if id != rows[|rows| - 1].areaID {
          assert id in AreaMapOf(init);
          var i :| 0 <= i < |init| && init[i].areaID == id;
          assert rows[i] == init[i];
        }
      }
      forall id | exists i :: 0 <= i < |rows| && rows[i].areaID == id
        ensures id in AreaMapOf(rows)
      {
        var i :| 0 <= i < |rows| && rows[i].areaID == id;
        if i < |rows| - 1 {
          assert init[i] == rows[i];
        }
      }
    }
  }

  /** A row's trimmed name is what the directory holds for its id unless a
      later row carries the same id: the last row wins. */
  lemma {:induction false} AreaMapLastWins(rows: seq<AreaRow>, i: nat)
    requires i < |rows|
    requires forall j :: i < j < |rows| ==> rows[j].areaID != rows[i].areaID
    ensures rows[i].areaID in AreaMapOf(rows)
    ensures AreaMapOf(rows)[rows[i].areaID] == TrimSpace(rows[i].areaName)
  {
    if i < |rows| - 1 {
      var init := rows[..|rows| - 1];
      assert init[i] == rows[i];
      AreaMapLastWins(init, i);
    }
  }

  /** Go's areaMap[id]: the zero value "" for an id the directory lacks. */
  function Lookup(areaMap: AreaMap, id: int): string {
    if id in areaMap then areaMap[id] else ""
  }

  /** The names of the rep's areas, in the rep's order. */
  function AreaNames(areas: seq<int>, areaMap: AreaMap): seq<string> {
    seq(|areas|, i requires 0 <= i < |areas| => Lookup(areaMap, areas[i]))
  }

  /** The decimal text of each id, in order. */
  function DecimalIDs(areas: seq<int>): seq<string> {
    seq(|areas|, i requires 0 <= i < |areas| => Itoa(areas[i]))
  }

  /** The text spliced into `sa.area_id IN (...)`: the ids joined by commas. */
  function AreaFilter(areas: seq<int>): string {
    Join(DecimalIDs(areas), ",")
  }

  /** The loop over the rep's areas: the name list and the filter, built by
      appending and then cutting the trailing comma. */
  method BuildAreaListAndFilter(areas: seq<int>, areaMap: AreaMap) returns (areaList: seq<string>, areaFilter: string)
    ensures areaList == AreaNames(areas, areaMap)
    ensures |areaList| == |areas|
    ensures forall i :: 0 <= i < |areas| ==> areaList[i] == Lookup(areaMap, areas[i])
    ensures areaFilter == AreaFilter(areas)
  {
    areaList := [];
    areaFilter := "";
    var i := 0;
    while i < |areas|
      invariant 0 <= i <= |areas|
      invariant |areaList| == i
      invariant areaList == AreaNames(areas, areaMap)[..i]
      invariant areaFilter == Terminated(DecimalIDs(areas)[..i], ",")
    {
      NamesStep(areas, areaMap, i);
      FilterStep(areas, i);
      areaList := areaList + [Lookup(areaMap, areas[i])];
      areaFilter := areaFilter + Itoa(areas[i]) + ",";
      i := i + 1;
    }
    assert AreaNames(areas, areaMap)[..i] == AreaNames(areas, areaMap);
    StripTrailingComma(areas);
    if HasSuffix(areaFilter, ",") {
      areaFilter := areaFilter[..|areaFilter| - 1];
    }
  }

  /** One more area's name appended to the list. */
  lemma NamesStep(areas: seq<int>, areaMap: AreaMap, i: nat)
    requires i < |areas|
    ensures AreaNames(areas, areaMap)[..i + 1] == AreaNames(areas, areaMap)[..i] + [Lookup(areaMap, areas[i])]
  {
  }

  /** One more id appended to the filter text, followed by a comma. */
  lemma FilterStep(areas: seq<int>, i: nat)
    requires i < |areas|
    ensures Terminated(DecimalIDs(areas)[..i + 1], ",") == Terminated(DecimalIDs(areas)[..i], ",") + Itoa(areas[i]) + ","
  {
    TerminatedStep(DecimalIDs(areas), i, ",");
  }

  /** Cutting the comma the loop leaves at the end yields the filter, and a
      filter built from no ids has no comma to cut. */
  lemma StripTrailingComma(areas: seq<int>)
    ensures var t := Terminated(DecimalIDs(areas)[..|areas|], ",");
      (if HasSuffix(t, ",") then t[..|t| - 1] else t) == AreaFilter(areas)
  {
    var ids := DecimalIDs(areas);
    assert ids[..|areas|] == ids;
    if ids != [] {
      TerminatedIsJoin(ids, ",");
      DropSuffix(Join(ids, ","), ",");
    }
  }

  /** No areas, no filter text. */
  lemma AreaFilterEmpty()
    ensures AreaFilter([]) == ""
  {
  }

  /** The filter holds one comma per gap between ids and does not end in a comma. */
  lemma AreaFilterCommas(areas: seq<int>)
    requires |areas| >= 1
    ensures CountChar(AreaFilter(areas), ',') == |areas| - 1
    ensures AreaFilter(areas)[|AreaFilter(areas)| - 1] != ','
  {
    var ids := DecimalIDs(areas);
    forall i | 0 <= i < |ids| ensures ',' !in ids[i] {
      assert ids[i] == Itoa(areas[i]);
    }
    JoinCountsSeparators(ids, ",", ',');
    FilterEndsInDigit(ids);
  }

  lemma {:induction false} FilterEndsInDigit(ids: seq<string>)
    requires |ids| >= 1
    requires forall i :: 0 <= i < |ids| ==> |ids[i]| >= 1 && IsDigit(ids[i][|ids[i]| - 1])
    ensures |Join(ids, ",")| >= 1 && IsDigit(Join(ids, ",")[|Join(ids, ",")| - 1])
  {
    if |ids| > 1 {
      FilterEndsInDigit(ids[1..]);
    }
  }

  /** Reads the ids back out of a filter: split on commas, parse each piece. */
  function ParseFilter(filter: string): seq<int>
    requires forall piece :: piece in Split(filter, ',') ==>
      |piece| >= 1 && (piece[0] == '-' || IsDigit(piece[0])) && forall i :: 0 < i < |piece| ==> IsDigit(piece[i])
  {
    var pieces := Split(filter, ',');
    seq(|pieces|, i requires 0 <= i < |pieces| => Atoi(pieces[i]))
  }

  /** The filter names exactly the rep's ids, in the rep's order. */
  lemma AreaFilterRoundTrip(areas: seq<int>)
    requires |areas| >= 1
    ensures Split(AreaFilter(areas), ',') == DecimalIDs(areas)
    ensures ParseFilter(AreaFilter(areas)) == areas
  {
    var ids := DecimalIDs(areas);
    forall i | 0 <= i < |ids| ensures ',' !in ids[i] {
      assert ids[i] == Itoa(areas[i]);
    }
    SplitJoin(ids, ',');
    assert "," == [','];
    forall i | 0 <= i < |areas| ensures Atoi(ids[i]) == areas[i] {
      ItoaRoundTrip(areas[i]);
    }
  }

  /** The phrase for a non-empty list of area names: "area X only",
      "areas X and Y", or the names before the last joined by ", " and the
      last one after " and ". */
  function AreaPhrase(names: seq<string>): string
    requires |names| >= 1
  {
    if |names| == 1 then "area " + names[0] + " only"
    else if |names| == 2 then "areas " + names[0] + " and " + names[1]
    else "areas " + Join(names[..|names| - 1], ", ") + " and " + names[|names| - 1]
  }

  /** The phrase step of one rep's iteration. `areaOutput` is the variable
      kept across reps: with no area names it is left as it was. */
  method FormatAreaPhrase(areaList: seq<string>, areaOutput: string) returns (phrase: string)
    ensures |areaList| == 0 ==> phrase == areaOutput
    ensures |areaList| >= 1 ==> phrase == AreaPhrase(areaList)
  {
    phrase := areaOutput;
    var n := |areaList|;
    if n == 1 {
      phrase := "area " + areaList[0] + " only";
    } else if n == 2 {
      phrase := "areas " + areaList[0] + " and " + areaList[1];
    } else if n >= 3 {
      phrase := "areas ";
      var i := 0;
      while i < n - 1
        invariant 0 <= i <= n - 1
        invariant phrase == "areas " + Terminated(areaList[..i], ", ")
      {
        assert areaList[..i + 1][..i] == areaList[..i];
        phrase := phrase + areaList[i] + ", ";
        i := i + 1;
      }
      var init := areaList[..n - 1];
      TerminatedIsJoin(init, ", ");
      DropSuffix("areas " + Join(init, ", "), ", ");
      assert phrase == "areas " + Join(init, ", ") + ", ";
      if HasSuffix(phrase, ", ") {
        phrase := phrase[..|phrase| - 2];
      }
      phrase := phrase + " and " + areaList[n - 1];
    }
  }

  /** From two names on, one form covers every length: the names before the
      last joined by ", ", then " and " and the last name. */
  lemma AreaPhraseUniform(names: seq<string>)
    requires |names| >= 2
    ensures AreaPhrase(names) == "areas " + Join(names[..|names| - 1], ", ") + " and " + names[|names| - 1]
  {
  }

  lemma CountChar3(a: string, b: string, c: string, ch: char)
    ensures CountChar(a + b + c, ch) == CountChar(a, ch) + CountChar(b, ch) + CountChar(c, ch)
  {
    CountCharConcat(a + b, c, ch);
    CountCharConcat(a, b, ch);
  }

  /** The fixed words of the phrase hold no comma. */
  lemma PhraseWordsCommaFree()
    ensures CountChar("area ", ',') == 0 && CountChar(" only", ',') == 0
    ensures CountChar("areas ", ',') == 0 && CountChar(" and ", ',') == 0
  {
    CountCharAbsent("area ", ',');
    CountCharAbsent(" only", ',');
    CountCharAbsent("areas ", ',');
    CountCharAbsent(" and ", ',');
  }

  /** When no name holds a comma, the phrase holds one comma per name beyond
      the second: the separators between the names before the last. */
  lemma AreaPhraseCommas(names: seq<string>)
    requires |names| >= 1
    requires forall i :: 0 <= i < |names| ==> ',' !in names[i]
    ensures CountChar(AreaPhrase(names), ',') == if |names| >= 3 then |names| - 2 else 0
  {
    if |names| == 1 {
      PhraseWordsCommaFree();
      CountCharAbsent(names[0], ',');
      CountChar3("area ", names[0], " only", ',');
    } else {
      ManyNamesCommas(names);
    }
  }

  lemma ManyNamesCommas(names: seq<string>)
    requires |names| >= 2
    requires forall i :: 0 <= i < |names| ==> ',' !in names[i]
    ensures CountChar(AreaPhrase(names), ',') == |names| - 2
  {
    var n := |names|;
    var init := names[..n - 1];
    var joined := Join(init, ", ");
    JoinedNamesCommas(init);
    AreaPhraseUniform(names);
    PhraseWordsCommaFree();
    CountCharAbsent(names[n - 1], ',');
    CountChar3("areas ", joined, " and ", ',');
    CountCharConcat("areas " + joined + " and ", names[n - 1], ',');
  }

  lemma JoinedNamesCommas(init: seq<string>)
    requires |init| >= 1
    requires forall i :: 0 <= i < |init| ==> ',' !in init[i]
    ensures CountChar(Join(init, ", "), ',') == |init| - 1
  {
    if |init| == 1 {
      CountCharAbsent(init[0], ',');
    } else {
      JoinCountsSeparators(init, ", ", ',');
    }
  }

  /** The three-name example: North, South and East. */
  lemma AreaPhraseThreeNames()
    ensures AreaPhrase(["North", "South", "East"]) == "areas North, South and East"
  {
    var names := ["North", "South", "East"];
    assert names[..2] == ["North", "South"];
    assert ["North", "South"][1..] == ["South"];
    assert Join(["North", "South"], ", ") == "North" + ", " + "South";
  }
}
