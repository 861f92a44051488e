/**
 * The row handling of `analyse_stop` in `busdatagenerator.py`: the cells of each
 * table row of a stop's page become a `Register` stamped with the current
 * time, a delay cell holding `'+'` standing for 999 minutes, rows whose delay
 * is not an integer being skipped, and an optional filter on the line.
 */
module Scraper {
  import opened Wrappers
  import opened Builtins
  import opened DateTimes
  import opened Registers

  /** The `lines` argument: `None`, an `int`, a `str`, or any other iterable of values. */
  datatype LinesArg = NoFilter | OneInt(n: int) | OneStr(s: string) | Many(items: seq<PyValue>)

  /** `str()` of every item, in order. */
  function StrAll(items: seq<PyValue>): (r: seq<string>)
    ensures |r| == |items|
    ensures forall k :: 0 <= k < |items| ==> r[k] == Str(items[k])
  {
    if items == [] then [] else StrAll(items[..|items| - 1]) + [Str(items[|items| - 1])]
  }

  /** `lines` normalised to a tuple of strings, or `None` for no filter. */
  function NormaliseLines(lines: LinesArg): (r: Option<seq<string>>)
    ensures r.None? <==> lines.NoFilter?
  {
    match lines
    case NoFilter => None
    case OneInt(n) => Some([IntToString(n)])
    case OneStr(s) => Some([s])
    case Many(items) => Some(StrAll(items))
  }

  /** The last cell after the `'+'` substitution, as `int()` receives it. */
  function DelayCell(cell: string): PyValue
  {
    if '+' in cell then PyInt(999) else PyStr(cell)
  }

  /**
   * The register of one non-empty row read at `now`, or the `ValueError` that
   * makes the loop skip the row.
   */
  function RowRegister(row: seq<string>, now: DateTime, stop: int): (r: Result<Register, PyError>)
    requires row != [] && Valid(now)
    ensures var last := row[|row| - 1];
      (r.Ok? <==> '+' in last || ParseInt(last).Some?)
      && (r.Ok? ==> r.value.line == row[0] && r.value.actualDatetime == Format(now) && r.value.stopId == stop
                    && r.value.delayMinutes == if '+' in last then 999 else ParseInt(last).value)
      && (r.Err? ==> r.error == ValueError)
  {
    var delay :- Int(DelayCell(row[|row| - 1]));
    NewRegister(PyStr(row[0]), PyStr(Format(now)), PyInt(delay), PyInt(stop))
  }

  /** What one row gives the loop: its register, or nothing for an empty or skipped row. */
  function RowOutcome(row: seq<string>, now: DateTime, stop: int): (o: Option<Register>)
    requires Valid(now)
    ensures o.Some? <==> row != [] && RowRegister(row, now, stop).Ok?
    ensures o.Some? ==> o.value == RowRegister(row, now, stop).value
  {
    if row == [] then None
    else match RowRegister(row, now, stop)
      case Err(_) => None
      case Ok(r) => Some(r)
  }

  /** Whether the line filter lets `r` through. */
  predicate Keeps(lines: Option<seq<string>>, r: Register)
  {
    lines.None? || r.line in lines.value
  }

  predicate AllValid(clock: seq<DateTime>)
  {
    forall k :: 0 <= k < |clock| ==> Valid(clock[k])
  }

  /** What each row gives, in order. */
  function Outcomes(rows: seq<seq<string>>, clock: seq<DateTime>, stop: int): (outs: seq<Option<Register>>)
    requires |clock| == |rows| && AllValid(clock)
    ensures |outs| == |rows|
    ensures forall k :: 0 <= k < |rows| ==> outs[k] == RowOutcome(rows[k], clock[k], stop)
  {
    if rows == [] then []
    else
      var n := |rows| - 1;
      Outcomes(rows[..n], clock[..n], stop) + [RowOutcome(rows[n], clock[n], stop)]
  }

  /** The registers the loop appends, given what each row gives. */
  function Collected(outs: seq<Option<Register>>, lines: Option<seq<string>>): seq<Register>
  {
    if outs == [] then []
    else
      var n := |outs| - 1;
      var before := Collected(outs[..n], lines);
      match outs[n]
      case None => before
      case Some(r) => if Keeps(lines, r) then before + [r] else before
  }

  /** The registers `analyse_stop` collects from `rows`, the k-th row being read at `clock[k]`. */
  function Analysed(rows: seq<seq<string>>, clock: seq<DateTime>, stop: int, lines: Option<seq<string>>)
    : seq<Register>
    requires |clock| == |rows| && AllValid(clock)
  {
    Collected(Outcomes(rows, clock, stop), lines)
  }

  /**
   * `analyse_stop(stop_number, lines)` over the cells of the page's rows; the
   * k-th row is read at `clock[k]`.
   */
  method AnalyseStop(stop: int, lines: LinesArg, rows: seq<seq<string>>, clock: seq<DateTime>)
    returns (output: seq<Register>)
    requires |clock| == |rows| && AllValid(clock)
    ensures output == Analysed(rows, clock, stop, NormaliseLines(lines))
  {
    var filter := NormaliseLines(lines);
    ghost var outs := Outcomes(rows, clock, stop);
    output := [];
    for i := 0 to |rows|
      invariant output == Collected(outs[..i], filter)
    {
      CollectedNext(outs, i, filter);
      assert outs[i] == RowOutcome(rows[i], clock[i], stop);
      var t := rows[i];
      if |t| == 0 {
        continue;
      }
      var register := RowRegister(t, clock[i], stop);
      if register.Err? {
        continue;
      }
      if filter.Some? {
        if register.value.line in filter.value {
          output := output + [register.value];
        }
      } else {
        output := output + [register.value];
      }
    }
    assert outs[..|rows|] == outs;
  }

  /** Collecting one more outcome appends its register when it has one the filter keeps. */
  lemma CollectedNext(outs: seq<Option<Register>>, i: nat, lines: Option<seq<string>>)
    requires i < |outs|
    ensures Collected(outs[..i + 1], lines) ==
      if outs[i].Some? && Keeps(lines, outs[i].value) then Collected(outs[..i], lines) + [outs[i].value]
      else Collected(outs[..i], lines)
  {
    assert outs[..i + 1][..i] == outs[..i];
  }

  /** Exactly the registers given by some row and let through by the filter are collected. */
  lemma {:induction false} CollectedMembers(outs: seq<Option<Register>>, lines: Option<seq<string>>, r: Register)
    ensures r in Collected(outs, lines) <==> Keeps(lines, r) && Some(r) in outs
  {
    if outs != [] {
      var n := |outs| - 1;
      CollectedMembers(outs[..n], lines, r);
      assert outs == outs[..n] + [outs[n]];
    }
  }

  /** No row gives more than one register. */
  lemma {:induction false} CollectedBound(outs: seq<Option<Register>>, lines: Option<seq<string>>)
    ensures |Collected(outs, lines)| <= |outs|
  {
    if outs != [] {
      CollectedBound(outs[..|outs| - 1], lines);
    }
  }

  /** A row that gives nothing can be dropped without changing what is collected. */
  lemma {:induction false} CollectedSkip(outs: seq<Option<Register>>, lines: Option<seq<string>>, k: nat)
    requires k < |outs| && outs[k].None?
    ensures Collected(outs, lines) == Collected(outs[..k] + outs[k + 1..], lines)
  {
    var n := |outs| - 1;
    var outs' := outs[..k] + outs[k + 1..];
    if k == n {
      assert outs' == outs[..n];
    } else {
      CollectedSkip(outs[..n], lines, k);
      assert outs'[..|outs'| - 1] == outs[..n][..k] + outs[..n][k + 1..];
      assert outs'[|outs'| - 1] == outs[n];
    }
  }

  /**
   * Exactly the kept registers of the rows that yield one are collected: each
   * collected register comes from such a row, and each such row contributes
   * its register.
   */
  lemma AnalysedMembers(rows: seq<seq<string>>, clock: seq<DateTime>, stop: int, lines: Option<seq<string>>, r: Register)
    requires |clock| == |rows| && AllValid(clock)
    ensures r in Analysed(rows, clock, stop, lines) <==>
              Keeps(lines, r) && exists k :: 0 <= k < |rows| && RowOutcome(rows[k], clock[k], stop) == Some(r)
  {
    var outs := Outcomes(rows, clock, stop);
    CollectedMembers(outs, lines, r);
    if Some(r) in outs {
      var k :| 0 <= k < |outs| && outs[k] == Some(r);
    }
  }

  /** `analyse_stop` returns at most one register per row. */
  lemma AnalysedBound(rows: seq<seq<string>>, clock: seq<DateTime>, stop: int, lines: Option<seq<string>>)
    requires |clock| == |rows| && AllValid(clock)
    ensures |Analysed(rows, clock, stop, lines)| <= |rows|
  {
    CollectedBound(Outcomes(rows, clock, stop), lines);
  }

  /** `delay` is what the last cell of `row` stands for: 999 for `'+'`, its integer otherwise. */
  predicate DelayOf(row: seq<string>, delay: int)
    requires row != []
  {
    var last := row[|row| - 1];
    if '+' in last then delay == 999 else ParseInt(last) == Some(delay)
  }

  /**
   * Every collected register carries the stop asked for, passes the line
   * filter and is made from one non-empty row: its first cell, the time the
   * row was read, and a delay of 999 for a `'+'` cell or the cell's integer.
   */
  lemma AnalysedRegisters(rows: seq<seq<string>>, clock: seq<DateTime>, stop: int, lines: LinesArg, r: Register)
    requires |clock| == |rows| && AllValid(clock)
    requires r in Analysed(rows, clock, stop, NormaliseLines(lines))
    ensures r.stopId == stop
    ensures lines.OneInt? ==> r.line == IntToString(lines.n)
    ensures lines.OneStr? ==> r.line == lines.s
    ensures lines.Many? ==> exists k :: 0 <= k < |lines.items| && r.line == Str(lines.items[k])
    ensures exists k :: 0 <= k < |rows| && rows[k] != [] && r.line == rows[k][0]
                        && r.actualDatetime == Format(clock[k]) && DelayOf(rows[k], r.delayMinutes)
  {
    AnalysedMembers(rows, clock, stop, NormaliseLines(lines), r);
    var k :| 0 <= k < |rows| && RowOutcome(rows[k], clock[k], stop) == Some(r);
    OutcomeFields(rows[k], clock[k], stop, r);
    KeptLine(lines, r);
  }

  /** A register a row gives is made from that row. */
  lemma OutcomeFields(row: seq<string>, now: DateTime, stop: int, r: Register)
    requires Valid(now) && RowOutcome(row, now, stop) == Some(r)
    ensures row != [] && r.stopId == stop && r.line == row[0] && r.actualDatetime == Format(now)
    ensures DelayOf(row, r.delayMinutes)
  {
  }

  /** A register the normalised filter keeps has one of the lines asked for. */
  lemma KeptLine(lines: LinesArg, r: Register)
    requires Keeps(NormaliseLines(lines), r)
    ensures lines.OneInt? ==> r.line == IntToString(lines.n)
    ensures lines.OneStr? ==> r.line == lines.s
    ensures lines.Many? ==> exists k :: 0 <= k < |lines.items| && r.line == Str(lines.items[k])
  {
    if lines.Many? {
      var names := NormaliseLines(lines).value;
      var j :| 0 <= j < |names| && names[j] == r.line;
      assert r.line == Str(lines.items[j]);
    }
  }

  /**
   * A row that gives no register, being empty or having a delay cell that is
   * neither an integer nor holds `'+'`, can be removed without changing the
   * result, whatever the filter.
   */
  lemma SkipRow(rows: seq<seq<string>>, clock: seq<DateTime>, stop: int, lines: Option<seq<string>>, k: nat)
    requires |clock| == |rows| && AllValid(clock)
    requires k < |rows| && (rows[k] == [] || ('+' !in rows[k][|rows[k]| - 1] && ParseInt(rows[k][|rows[k]| - 1]).None?))
    ensures AllValid(clock[..k] + clock[k + 1..])
    ensures Analysed(rows, clock, stop, lines) == Analysed(rows[..k] + rows[k + 1..], clock[..k] + clock[k + 1..], stop, lines)
  {
    OutcomesSkip(rows, clock, stop, k);
    var outs := Outcomes(rows, clock, stop);
    assert outs[k].None?;
    CollectedSkip(outs, lines, k);
  }

  /** Dropping row `k` drops its outcome and leaves the others in order. */
  lemma OutcomesSkip(rows: seq<seq<string>>, clock: seq<DateTime>, stop: int, k: nat)
    requires |clock| == |rows| && AllValid(clock) && k < |rows|
    ensures AllValid(clock[..k] + clock[k + 1..])
    ensures Outcomes(rows[..k] + rows[k + 1..], clock[..k] + clock[k + 1..], stop)
              == Outcomes(rows, clock, stop)[..k] + Outcomes(rows, clock, stop)[k + 1..]
  {
    var rows' := rows[..k] + rows[k + 1..];
    var clock' := clock[..k] + clock[k + 1..];
    forall j | 0 <= j < |clock'|
      ensures Valid(clock'[j])
    {
      Dropped(clock, k, j);
    }
    var outs := Outcomes(rows, clock, stop);
    var outs' := Outcomes(rows', clock', stop);
    var rest := outs[..k] + outs[k + 1..];
    forall j | 0 <= j < |outs'|
      ensures outs'[j] == rest[j]
    {
      Dropped(rows, k, j);
      Dropped(clock, k, j);
      Dropped(outs, k, j);
    }
  }

  /** Element `j` of `s` without its element `k`. */
  lemma Dropped<T>(s: seq<T>, k: nat, j: nat)
    requires k < |s| && j < |s| - 1
    ensures (s[..k] + s[k + 1..])[j] == if j < k then s[j] else s[j + 1]
  {
  }
}
