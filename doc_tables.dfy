/** The table-nesting state machine of the Word binary parser: a stack of
    in-table / in-row / in-cell markers that the row, cell and paragraph
    callbacks push and pop, sending the matching open and close tags and
    throwing a parsing error when the nesting they are told about is
    impossible. The stack is written with its top as the LAST element. */
module DocTables {
  import opened Common

  datatype TableState = InTable | InRow | InCell

  /** What one callback does to the nesting: the new stack, the tags it sent
      (in order), and the message of the ParsingError it threw, if any. Tags
      sent before a throw are part of `emitted`, the pops done before it are
      part of `stack`. */
  datatype TableStep = TableStep(stack: seq<TableState>, emitted: seq<Tag>, error: Option<string>)

  function Top(s: seq<TableState>): TableState
    requires |s| > 0
  {
    s[|s| - 1]
  }

  function Pop(s: seq<TableState>): seq<TableState>
    requires |s| > 0
  {
    s[..|s| - 1]
  }

  predicate TopIs(s: seq<TableState>, t: TableState)
  {
    |s| > 0 && Top(s) == t
  }

  /** Start of a table row: open a table first when there is none at this
      level (empty stack, or inside a cell: a nested table), then open the
      row; a row cannot start directly inside another row. */
  function RowStart(s: seq<TableState>): (r: TableStep)
    ensures r.error.Some? <==> TopIs(s, InRow)
    ensures r.error.Some? ==> r.stack == s && r.emitted == []
    ensures r.error.None? && (|s| == 0 || Top(s) == InCell) ==> r.stack == s + [InTable, InRow] && r.emitted == [Table, TableRow]
    ensures r.error.None? && TopIs(s, InTable) ==> r.stack == s + [InRow] && r.emitted == [TableRow]
  {
    var (s1, e1) := if |s| == 0 || Top(s) == InCell then (s + [InTable], [Table]) else (s, []);
    if Top(s1) != InTable then TableStep(s1, e1, Some("Unexpected start of table row"))
    else TableStep(s1 + [InRow], e1 + [TableRow], None)
  }

  /** End of a table row: close a cell left open, then close the row. */
  function RowEnd(s: seq<TableState>): (r: TableStep)
    ensures r.error.None? <==> TopIs(s, InRow) || (TopIs(s, InCell) && TopIs(Pop(s), InRow))
    ensures TopIs(s, InRow) ==> r.stack == Pop(s) && r.emitted == [CloseTableRow]
    ensures TopIs(s, InCell) && TopIs(Pop(s), InRow) ==> r.stack == Pop(Pop(s)) && r.emitted == [CloseTableCell, CloseTableRow]
    ensures r.error.Some? ==> (TopIs(s, InCell) ==> r.stack == Pop(s) && r.emitted == [CloseTableCell])
                              && (!TopIs(s, InCell) ==> r.stack == s && r.emitted == [])
  {
    if |s| == 0 then TableStep(s, [], Some("Unexpected end of table row"))
    else
      var (s1, e1) := if Top(s) == InCell then (Pop(s), [CloseTableCell]) else (s, []);
      if |s1| == 0 || Top(s1) != InRow then TableStep(s1, e1, Some("Unexpected end of table row"))
      else TableStep(Pop(s1), e1 + [CloseTableRow], None)
  }

  /** Start of a cell: only directly inside a row. */
  function CellStart(s: seq<TableState>): (r: TableStep)
    ensures r.error.None? <==> TopIs(s, InRow)
    ensures r.error.None? ==> r.stack == s + [InCell] && r.emitted == [TableCell]
    ensures r.error.Some? ==> r.stack == s && r.emitted == []
  {
    if |s| == 0 || Top(s) != InRow then TableStep(s, [], Some("Unexpected start of table cell"))
    else TableStep(s + [InCell], [TableCell], None)
  }

  /** End of a cell: a table whose last row end was the last event is closed
      first, then the cell itself. */
  function CellEnd(s: seq<TableState>): (r: TableStep)
    ensures r.error.None? <==> TopIs(s, InCell) || (TopIs(s, InTable) && TopIs(Pop(s), InCell))
    ensures TopIs(s, InCell) ==> r.stack == Pop(s) && r.emitted == [CloseTableCell]
    ensures TopIs(s, InTable) && TopIs(Pop(s), InCell) ==> r.stack == Pop(Pop(s)) && r.emitted == [CloseTable, CloseTableCell]
    ensures r.error.Some? ==> (TopIs(s, InTable) ==> r.stack == Pop(s) && r.emitted == [CloseTable])
                              && (!TopIs(s, InTable) ==> r.stack == s && r.emitted == [])
  {
    var (s1, e1) := if |s| > 0 && Top(s) == InTable then (Pop(s), [CloseTable]) else (s, []);
    if |s1| == 0 || Top(s1) != InCell then TableStep(s1, e1, Some("Unexpected end of table cell"))
    else TableStep(Pop(s1), e1 + [CloseTableCell], None)
  }

  /** The table part of a paragraph start: a paragraph after the last row
      closes the table; a paragraph directly in a row opens a cell for it. */
  function ParagraphTable(s: seq<TableState>): (r: TableStep)
    ensures r.error.None?
    ensures TopIs(s, InTable) ==> r.stack == Pop(s) && r.emitted == [CloseTable]
    ensures TopIs(s, InRow) ==> r.stack == s + [InCell] && r.emitted == [TableCell]
    ensures !TopIs(s, InTable) && !TopIs(s, InRow) ==> r.stack == s && r.emitted == []
  {
    if |s| > 0 && Top(s) == InTable then TableStep(Pop(s), [CloseTable], None)
    else if |s| > 0 && Top(s) == InRow then TableStep(s + [InCell], [TableCell], None)
    else TableStep(s, [], None)
  }

  // ---------------------------------------------------------------------
  // Reference semantics: the nesting that a sequence of tags describes.

  /** Effect of one tag on the nesting it describes: an open tag pushes its
      level, a close tag must match the innermost open level. */
  function ApplyTag(s: seq<TableState>, t: Tag): Option<seq<TableState>>
  {
    match t
    case Table => Some(s + [InTable])
    case TableRow => Some(s + [InRow])
    case TableCell => Some(s + [InCell])
    case CloseTable => if TopIs(s, InTable) then Some(Pop(s)) else None
    case CloseTableRow => if TopIs(s, InRow) then Some(Pop(s)) else None
    case CloseTableCell => if TopIs(s, InCell) then Some(Pop(s)) else None
    case _ => Some(s)
  }

  /** The nesting reached by reading `tags` from nesting `s`, or None when a
      close tag does not match. */
  function Replay(s: seq<TableState>, tags: seq<Tag>): Option<seq<TableState>>
    decreases |tags|
  {
    if tags == [] then Some(s)
    else match ApplyTag(s, tags[0])
      case None => None
      case Some(s1) => Replay(s1, tags[1..])
  }

  lemma {:induction false} ReplayAppend(s: seq<TableState>, a: seq<Tag>, b: seq<Tag>)
    ensures Replay(s, a + b) == match Replay(s, a) case None => None case Some(s1) => Replay(s1, b)
    decreases |a|
  {
    if a == [] {
      assert a + b == b;
    } else {
      assert (a + b)[0] == a[0];
      assert (a + b)[1..] == a[1..] + b;
      match ApplyTag(s, a[0])
      case None =>
      case Some(s1) => ReplayAppend(s1, a[1..], b);
    }
  }

  // ---------------------------------------------------------------------
  // The callbacks as events, and runs of them.

  datatype TableEvent = RowStartEv | RowEndEv | CellStartEv | CellEndEv | ParagraphEv

  /** One callback; a paragraph start sends its Paragraph tag after the
      table tags. */
  function Dispatch(s: seq<TableState>, ev: TableEvent): TableStep
  {
    match ev
    case RowStartEv => RowStart(s)
    case RowEndEv => RowEnd(s)
    case CellStartEv => CellStart(s)
    case CellEndEv => CellEnd(s)
    case ParagraphEv =>
      var p := ParagraphTable(s);
      TableStep(p.stack, p.emitted + [Paragraph], None)
  }

  /** The callbacks `evs` run after the step `st`: nothing more happens once
      a callback has thrown. */
  function After(st: TableStep, evs: seq<TableEvent>): TableStep
    decreases |evs|, 1
  {
    if st.error.Some? then st
    else
      var rest := RunEvents(st.stack, evs);
      TableStep(rest.stack, st.emitted + rest.emitted, rest.error)
  }

  /** A run of callbacks; a ParsingError ends the run (it aborts the parse). */
  function RunEvents(s: seq<TableState>, evs: seq<TableEvent>): TableStep
    decreases |evs|, 0
  {
    if evs == [] then TableStep(s, [], None)
    else After(Dispatch(s, evs[0]), evs[1..])
  }

  /** Every callback, on its success path and on its error path alike, leaves
      exactly the nesting that the tags it sent describe. */
  lemma DispatchReflectsNesting(s: seq<TableState>, ev: TableEvent)
    ensures Replay(s, Dispatch(s, ev).emitted) == Some(Dispatch(s, ev).stack)
  {
    var st := Dispatch(s, ev);
    match ev
    case RowStartEv =>
      if st.emitted == [Table, TableRow] {
        assert Replay(s, st.emitted) == Replay(s + [InTable], [TableRow]);
      }
    case RowEndEv =>
      if |s| > 0 && Top(s) == InCell {
        assert Pop(s) == s[..|s| - 1];
        if st.error.None? {
          assert Replay(s, st.emitted) == Replay(Pop(s), [CloseTableRow]);
        }
      }
    case CellStartEv =>
    case CellEndEv =>
      if |s| > 0 && Top(s) == InTable && st.error.None? {
        assert Replay(s, st.emitted) == Replay(Pop(s), [CloseTableCell]);
      }
    case ParagraphEv =>
      var p := ParagraphTable(s);
      ReplayAppend(s, p.emitted, [Paragraph]);
  }

  /** Over any run of callbacks, the stack is the nesting the sent tags
      describe. */
  lemma {:induction false} RunReflectsNesting(s: seq<TableState>, evs: seq<TableEvent>)
    ensures Replay(s, RunEvents(s, evs).emitted) == Some(RunEvents(s, evs).stack)
    decreases |evs|
  {
    if evs != [] {
      var st := Dispatch(s, evs[0]);
      DispatchReflectsNesting(s, evs[0]);
      if st.error.None? {
        RunReflectsNesting(st.stack, evs[1..]);
        ReplayAppend(s, st.emitted, RunEvents(st.stack, evs[1..]).emitted);
      }
    }
  }

  // ---------------------------------------------------------------------
  // The shape of every reachable stack.

  function Expected(i: nat): TableState
  {
    if i % 3 == 0 then InTable else if i % 3 == 1 then InRow else InCell
  }

  /** Reachable stacks repeat table, row, cell from the bottom: a nested
      table can only start inside a cell. */
  ghost predicate WellNested(s: seq<TableState>)
  {
    forall i :: 0 <= i < |s| ==> s[i] == Expected(i)
  }

  lemma WellNestedPush(s: seq<TableState>, t: TableState)
    requires WellNested(s) && t == Expected(|s|)
    ensures WellNested(s + [t])
  {
  }

  lemma WellNestedTop(s: seq<TableState>)
    requires WellNested(s) && |s| > 0
    ensures Top(s) == Expected(|s| - 1) && WellNested(Pop(s))
  {
  }

  /** Every callback keeps the stack well nested, whether it succeeds or
      throws. */
  lemma {:induction false} DispatchPreservesNesting(s: seq<TableState>, ev: TableEvent)
    requires WellNested(s)
    ensures WellNested(Dispatch(s, ev).stack)
  {
    if |s| > 0 {
      WellNestedTop(s);
      if |s| > 1 {
        WellNestedTop(Pop(s));
      }
    }
    match ev
    case RowStartEv =>
      if |s| == 0 || Top(s) == InCell {
        WellNestedPush(s, InTable);
        WellNestedPush(s + [InTable], InRow);
      } else if Top(s) == InTable {
        WellNestedPush(s, InRow);
      }
    case RowEndEv =>
    case CellStartEv =>
      if TopIs(s, InRow) {
        WellNestedPush(s, InCell);
      }
    case CellEndEv =>
    case ParagraphEv =>
      if TopIs(s, InRow) {
        WellNestedPush(s, InCell);
      }
  }

  lemma {:induction false} RunPreservesNesting(s: seq<TableState>, evs: seq<TableEvent>)
    requires WellNested(s)
    ensures WellNested(RunEvents(s, evs).stack)
    decreases |evs|
  {
    if evs != [] {
      DispatchPreservesNesting(s, evs[0]);
      var st := Dispatch(s, evs[0]);
      if st.error.None? {
        RunPreservesNesting(st.stack, evs[1..]);
      }
    }
  }

  /** On a reachable stack, a row end is rejected exactly when there is no
      open row at this level: the stack is empty or its top is a table whose
      rows are all closed. */
  lemma RowEndRejects(s: seq<TableState>)
    requires WellNested(s)
    ensures RowEnd(s).error.Some? <==> |s| == 0 || Top(s) == InTable
  {
    if |s| > 0 {
      WellNestedTop(s);
      if Top(s) == InCell {
        assert (|s| - 1) % 3 == 2;
        WellNestedTop(Pop(s));
        assert TopIs(Pop(s), InRow);
      }
    }
  }

  /** On a reachable stack, a cell end is rejected exactly when no cell is
      open: the stack is empty, its top is a row, or it is a top-level table
      with no enclosing cell. */
  lemma CellEndRejects(s: seq<TableState>)
    requires WellNested(s)
    ensures CellEnd(s).error.Some? <==> |s| == 0 || Top(s) == InRow || |s| == 1
  {
    if |s| > 0 {
      WellNestedTop(s);
      if |s| > 1 {
        WellNestedTop(Pop(s));
      }
    }
  }

  // ---------------------------------------------------------------------
  // Well-formed tables: rows of cells, followed by a paragraph.

  function CellEvents(n: nat): seq<TableEvent>
  {
    if n == 0 then [] else [CellStartEv, CellEndEv] + CellEvents(n - 1)
  }

  function CellTags(n: nat): seq<Tag>
  {
    if n == 0 then [] else [TableCell, CloseTableCell] + CellTags(n - 1)
  }

  /** A row for each entry of `rows`, with that many cells. */
  function RowEvents(rows: seq<nat>): seq<TableEvent>
  {
    if rows == [] then [] else [RowStartEv] + CellEvents(rows[0]) + [RowEndEv] + RowEvents(rows[1..])
  }

  /** Tags of the rows after the table is open. */
  function RowTags(rows: seq<nat>): seq<Tag>
  {
    if rows == [] then [] else [TableRow] + CellTags(rows[0]) + [CloseTableRow] + RowTags(rows[1..])
  }

  lemma {:induction false} RunAppend(s: seq<TableState>, a: seq<TableEvent>, b: seq<TableEvent>)
    ensures RunEvents(s, a + b) == After(RunEvents(s, a), b)
    decreases |a|
  {
    if a == [] {
      assert a + b == b;
      assert [] + RunEvents(s, b).emitted == RunEvents(s, b).emitted;
    } else {
      assert (a + b)[0] == a[0];
      assert (a + b)[1..] == a[1..] + b;
      var st := Dispatch(s, a[0]);
      if st.error.None? {
        RunAppend(st.stack, a[1..], b);
        var ra := RunEvents(st.stack, a[1..]);
        if ra.error.None? {
          var rb := RunEvents(ra.stack, b);
          assert st.emitted + (ra.emitted + rb.emitted) == (st.emitted + ra.emitted) + rb.emitted;
        }
      }
    }
  }

  lemma {:induction false} RunCells(t: seq<TableState>, n: nat)
    requires TopIs(t, InRow)
    ensures RunEvents(t, CellEvents(n)) == TableStep(t, CellTags(n), None)
  {
    if n > 0 {
      var two := [CellStartEv, CellEndEv];
      assert RunEvents(t, two) == TableStep(t, [TableCell, CloseTableCell], None) by {
        assert two[1..] == [CellEndEv];
        assert Pop(t + [InCell]) == t;
      }
      RunAppend(t, two, CellEvents(n - 1));
      RunCells(t, n - 1);
    }
  }

  lemma RunSingle(s: seq<TableState>, ev: TableEvent)
    ensures RunEvents(s, [ev]) == Dispatch(s, ev)
  {
    assert [ev][1..] == [];
    var d := Dispatch(s, ev);
    assert RunEvents(s, [ev]) == After(d, []);
    if d.error.None? {
      assert RunEvents(d.stack, []) == TableStep(d.stack, [], None);
      assert d.emitted + [] == d.emitted;
    }
  }

  lemma {:induction false} RunRow(t: seq<TableState>, n: nat)
    requires TopIs(t, InTable)
    ensures RunEvents(t, [RowStartEv] + CellEvents(n) + [RowEndEv])
         == TableStep(t, [TableRow] + CellTags(n) + [CloseTableRow], None)
  {
    var u := t + [InRow];
    assert Top(u) == InRow && Pop(u) == t;
    RunSingle(t, RowStartEv);
    RunSingle(u, RowEndEv);
    assert [RowStartEv] + CellEvents(n) + [RowEndEv] == [RowStartEv] + (CellEvents(n) + [RowEndEv]);
    RunAppend(t, [RowStartEv], CellEvents(n) + [RowEndEv]);
    RunCells(u, n);
    RunAppend(u, CellEvents(n), [RowEndEv]);
    assert [TableRow] + CellTags(n) + [CloseTableRow] == [TableRow] + (CellTags(n) + [CloseTableRow]);
  }

  lemma {:induction false} RunRows(t: seq<TableState>, rows: seq<nat>)
    requires TopIs(t, InTable)
    ensures RunEvents(t, RowEvents(rows)) == TableStep(t, RowTags(rows), None)
  {
    if rows != [] {
      var row := [RowStartEv] + CellEvents(rows[0]) + [RowEndEv];
      assert RowEvents(rows) == row + RowEvents(rows[1..]);
      RunRow(t, rows[0]);
      RunAppend(t, row, RowEvents(rows[1..]));
      RunRows(t, rows[1..]);
    }
  }

  /** A table of at least one row, each row made of cell starts and ends,
      followed by a paragraph, is opened and closed again: the run leaves the
      stack where it found it and sends Table, the rows' tags, CloseTable
      and the Paragraph. This holds at top level (empty stack) and inside a
      cell (a nested table). */
  lemma WellFormedTable(s: seq<TableState>, rows: seq<nat>)
    requires |s| == 0 || Top(s) == InCell
    requires rows != []
    ensures RunEvents(s, RowEvents(rows) + [ParagraphEv])
         == TableStep(s, [Table] + RowTags(rows) + [CloseTable, Paragraph], None)
  {
    var t := s + [InTable];
    assert Top(t) == InTable && Pop(t) == s;
    var evs := RowEvents(rows) + [ParagraphEv];
    var first := [RowStartEv] + CellEvents(rows[0]) + [RowEndEv];
    assert RowEvents(rows) == first + RowEvents(rows[1..]);
    assert first[0] == RowStartEv;
    assert evs[0] == RowStartEv;
    FirstRowOpens(s, evs);
    TableBody(t, rows);
    var tail := RowTags(rows) + [CloseTable, Paragraph];
    assert [Table] + RowTags(rows) + [CloseTable, Paragraph] == [Table] + tail;
  }

  /** From outside a table, the first row start behaves as it does at table
      level, after opening the table. */
  lemma {:induction false} FirstRowOpens(s: seq<TableState>, evs: seq<TableEvent>)
    requires |s| == 0 || Top(s) == InCell
    requires evs != [] && evs[0] == RowStartEv
    ensures var r := RunEvents(s + [InTable], evs);
            RunEvents(s, evs) == TableStep(r.stack, [Table] + r.emitted, r.error)
  {
    var t := s + [InTable];
    assert Top(t) == InTable;
    assert Dispatch(s, RowStartEv) == TableStep(t + [InRow], [Table, TableRow], None);
    assert Dispatch(t, RowStartEv) == TableStep(t + [InRow], [TableRow], None);
  }

  /** At table level, the rows and the closing paragraph come back to the
      enclosing level. */
  lemma TableBody(t: seq<TableState>, rows: seq<nat>)
    requires TopIs(t, InTable)
    ensures RunEvents(t, RowEvents(rows) + [ParagraphEv]) == TableStep(Pop(t), RowTags(rows) + [CloseTable, Paragraph], None)
  {
    RunRows(t, rows);
    RunSingle(t, ParagraphEv);
    RunAppend(t, RowEvents(rows), [ParagraphEv]);
  }

  lemma RowEndWithoutRow()
    ensures RowEnd([]).error.Some? && RowEnd([]).emitted == []
  {
  }
}
