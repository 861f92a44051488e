/**
 * `input_interface.py`: the register the statistics work on, a bus line seen
 * at some minute, read back from the `busstats` table by `get_data`.
 */
module InputInterface {
  import opened Wrappers
  import opened Builtins
  import opened DateTimes
  import opened Registers

  /**
   * A `BSRegister` after `__post_init__`: the line as text and the datetime
   * cut to the minute; `date` and `time` are its two halves.
   */
  datatype BSRegister = BSRegister(line: string, moment: DateTime)
  {
    function DateOf(): Date
    {
      moment.date
    }

    function TimeOf(): Time
    {
      moment.time
    }
  }

  /** What `_datetime` is given as: text for `strptime`, or a datetime. */
  datatype Moment = MomentText(text: string) | MomentValue(value: DateTime)

  /** `replace(second=0, microsecond=0)`. */
  function Truncate(dt: DateTime): (t: DateTime)
    ensures t.date == dt.date && t.time.hour == dt.time.hour && t.time.minute == dt.time.minute
    ensures t.time.second == 0 && t.time.microsecond == 0
    ensures Valid(dt) ==> Valid(t) && AtMost(t, dt) && EpochMinutes(t) == EpochMinutes(dt)
  {
    DateTime(dt.date, Time(dt.time.hour, dt.time.minute, 0, 0))
  }

  /** A register as `__post_init__` leaves it: a real datetime with no seconds. */
  predicate Normal(r: BSRegister)
  {
    Valid(r.moment) && r.moment.time.second == 0 && r.moment.time.microsecond == 0
  }

  /**
   * `BSRegister(line, _datetime)`: `str()` of the line; text is parsed as
   * `%Y-%m-%d %H:%M:%S`, raising `ValueError` when it is no such datetime;
   * then seconds and microseconds are zeroed.
   */
  function NewBSRegister(line: PyValue, moment: Moment): (r: Result<BSRegister, PyError>)
    requires moment.MomentValue? ==> Valid(moment.value)
    ensures r.Ok? <==> moment.MomentValue? || ParseDateTime(moment.text).Ok?
    ensures r.Err? ==> r.error == ValueError
    ensures r.Ok? ==> Normal(r.value) && r.value.line == Str(line)
    ensures r.Ok? && moment.MomentValue? ==> r.value.moment == Truncate(moment.value)
    ensures r.Ok? && moment.MomentText? ==> r.value.moment == Truncate(ParseDateTime(moment.text).value)
  {
    var dt :- match moment
      case MomentText(text) => ParseDateTime(text)
      case MomentValue(value) => Ok(value);
    Ok(BSRegister(Str(line), Truncate(dt)))
  }

  /** The same datetime given as text or as a value makes the same register. */
  lemma NewBSRegisterOfText(line: PyValue, dt: DateTime)
    requires Valid(dt) && dt.time.microsecond == 0
    ensures NewBSRegister(line, MomentText(Format(dt))) == NewBSRegister(line, MomentValue(dt))
  {
    ParseFormat(dt);
  }

  /** Normalising an already normal register changes nothing. */
  lemma NewBSRegisterNormal(r: BSRegister)
    requires Normal(r)
    ensures NewBSRegister(PyStr(r.line), MomentValue(r.moment)) == Ok(r)
  {
  }

  // ---------------------------------------------------------------------------
  // Order and distance

  /** The right operand of `<` or `distance`: a register or anything else. */
  datatype Operand = RegisterOperand(reg: BSRegister) | OtherOperand(value: PyValue)

  /** The `assert isinstance(other, BSRegister)` that fails. */
  datatype AssertionFailed = AssertionFailed

  /** `a < b`: the datetimes alone are compared. */
  predicate Less(a: BSRegister, b: BSRegister)
  {
    Before(a.moment, b.moment)
  }

  /** `a.distance(b)`: the minutes between the two datetimes. */
  function Distance(a: BSRegister, b: BSRegister): (d: nat)
    requires Normal(a) && Normal(b)
  {
    var diff := EpochMinutes(a.moment) - EpochMinutes(b.moment);
    if diff < 0 then -diff else diff
  }

  /** `a < other`, failing its assertion when `other` is no register. */
  function LessThan(a: BSRegister, other: Operand): (r: Result<bool, AssertionFailed>)
    ensures r.Ok? <==> other.RegisterOperand?
    ensures r.Ok? ==> (r.value <==> Less(a, other.reg))
  {
    match other
    case OtherOperand(_) => Err(AssertionFailed)
    case RegisterOperand(b) => Ok(Less(a, b))
  }

  /** `a.distance(other)`, failing its assertion when `other` is no register. */
  function DistanceTo(a: BSRegister, other: Operand): (r: Result<nat, AssertionFailed>)
    requires Normal(a) && (other.RegisterOperand? ==> Normal(other.reg))
    ensures r.Ok? <==> other.RegisterOperand?
    ensures r.Ok? ==> r.value == Distance(a, other.reg)
  {
    match other
    case OtherOperand(_) => Err(AssertionFailed)
    case RegisterOperand(b) => Ok(Distance(a, b))
  }

  /**
   * The order of registers is the order of their minute counts, so it is
   * irreflexive, transitive and total up to equal datetimes.
   */
  lemma LessIffEarlier(a: BSRegister, b: BSRegister)
    requires Normal(a) && Normal(b)
    ensures Less(a, b) <==> EpochMinutes(a.moment) < EpochMinutes(b.moment)
  {
    BeforeIffFewerMinutes(a.moment, b.moment);
  }

  lemma LessStrictOrder(a: BSRegister, b: BSRegister, c: BSRegister)
    requires Normal(a) && Normal(b) && Normal(c)
    ensures !Less(a, a)
    ensures Less(a, b) && Less(b, c) ==> Less(a, c)
    ensures Less(a, b) || Less(b, a) || a.moment == b.moment
  {
    LessIffEarlier(a, a);
    LessIffEarlier(a, b);
    LessIffEarlier(b, a);
    LessIffEarlier(b, c);
    LessIffEarlier(a, c);
    if !Less(a, b) && !Less(b, a) {
      SameMinuteSameMoment(a, b);
    }
  }

  /** Two normal registers at the same minute count have the same datetime. */
  lemma SameMinuteSameMoment(a: BSRegister, b: BSRegister)
    requires Normal(a) && Normal(b) && EpochMinutes(a.moment) == EpochMinutes(b.moment)
    ensures a.moment == b.moment
  {
    var ta, tb := a.moment.time, b.moment.time;
    var oa, ob := Ordinal(a.moment.date), Ordinal(b.moment.date);
    assert (oa - 1) * 1440 + (ta.hour * 60 + ta.minute) == (ob - 1) * 1440 + (tb.hour * 60 + tb.minute);
    assert 0 <= ta.hour * 60 + ta.minute < 1440 && 0 <= tb.hour * 60 + tb.minute < 1440;
    assert oa == ob;
    OrdinalInjective(a.moment.date, b.moment.date);
  }

  /** `distance` is symmetric, zero exactly between equal datetimes, and obeys the triangle inequality. */
  lemma DistanceMetric(a: BSRegister, b: BSRegister, c: BSRegister)
    requires Normal(a) && Normal(b) && Normal(c)
    ensures Distance(a, b) == Distance(b, a)
    ensures Distance(a, b) == 0 <==> a.moment == b.moment
    ensures Distance(a, c) <= Distance(a, b) + Distance(b, c)
  {
    if Distance(a, b) == 0 {
      SameMinuteSameMoment(a, b);
    }
  }

  /** Between `datetime.min` and `datetime.max` lie 5258964959 minutes, the last one cut to 23:59. */
  lemma DistanceMinMax()
    ensures Normal(BSRegister("1", Truncate(Min))) && Normal(BSRegister("4", Truncate(Max)))
    ensures Distance(BSRegister("1", Truncate(Min)), BSRegister("4", Truncate(Max))) == 5258964959
  {
    assert Ordinal(Max.date) == 3652059 by {
      DaysBeforeYearValue();
    }
  }

  /** The days before year 9999 and before December. */
  lemma DaysBeforeYearValue()
    ensures DaysBeforeYear(9999) == 3651694
    ensures DaysBeforeMonth(9999, 12) == 334
  {
  }

  /** 2019-02-04 12:15:03 and 11:16 that day are 59 minutes apart, either way round. */
  lemma DistanceSameDay()
    ensures var a := NewBSRegister(PyInt(2), MomentValue(DateTime(Date(2019, 2, 4), Time(12, 15, 3, 0))));
            var b := NewBSRegister(PyInt(3), MomentValue(DateTime(Date(2019, 2, 4), Time(11, 16, 3, 0))));
            a.Ok? && b.Ok? && Distance(a.value, b.value) == 59 && Distance(b.value, a.value) == 59
  {
  }

  // ---------------------------------------------------------------------------
  // repr

  /** `repr(r)`: `BSRegister(line=<repr of line>, date='YYYY-MM-DD', time='HH:MM:SS')`. */
  function Repr(r: BSRegister): (s: string)
    requires Normal(r)
  {
    "BSRegister(line=" + ReprStr(r.line) + ", date='" + DateString(r.DateOf()) + "', time='"
    + TimeString(r.TimeOf()) + "')"
  }

  /** The text is 53 characters around the quoted line, and always shows zero seconds. */
  lemma ReprShape(r: BSRegister)
    requires Normal(r)
    ensures var s := Repr(r);
      |s| == 53 + |ReprStr(r.line)| && s[..16] == "BSRegister(line=" && s[|s| - 5..] == ":00')"
  {
    var s := Repr(r);
    var t := TimeString(r.TimeOf());
    assert t[6..] == "00";
    assert s[|s| - 5..] == t[5..] + "')";
  }

  /**
   * For a line of printable ASCII with no quote or backslash, the text is
   * `BSRegister(line='L', date='YYYY-MM-DD', time='HH:MM:00')`.
   */
  lemma ReprForm(r: BSRegister)
    requires Normal(r)
    requires forall i :: 0 <= i < |r.line| ==> PlainLineChar(r.line[i])
    ensures Repr(r) == "BSRegister(line='" + r.line + "', date='" + DateString(r.DateOf()) + "', time='"
                       + Pad2(r.TimeOf().hour) + ":" + Pad2(r.TimeOf().minute) + ":00')"
  {
    ReprStrPlain(r.line);
    TimeStringOfMinute(r.TimeOf());
    ReprQuoted(r.line, DateString(r.DateOf()), Pad2(r.TimeOf().hour) + ":" + Pad2(r.TimeOf().minute) + ":00");
  }

  lemma ReprQuoted(line: string, date: string, time: string)
    ensures "BSRegister(line=" + ("'" + line + "'") + ", date='" + date + "', time='" + time + "')"
            == "BSRegister(line='" + line + "', date='" + date + "', time='" + time + "')"
  {
  }

  lemma ReprStrPlain(line: string)
    requires forall i :: 0 <= i < |line| ==> PlainLineChar(line[i])
    ensures ReprStr(line) == "'" + line + "'"
  {
    EscapeAllPlain(line, '\'');
  }

  lemma TimeStringOfMinute(t: Time)
    requires ValidTime(t) && t.second == 0 && t.microsecond == 0
    ensures TimeString(t) == Pad2(t.hour) + ":" + Pad2(t.minute) + ":00"
  {
    assert Pad2(0) == "00";
  }

  /** Printable ASCII other than the quotes and the backslash: `repr` writes it as it is. */
  predicate PlainLineChar(c: char)
  {
    c != '\'' && c != '"' && c != '\\' && ' ' <= c < '\U{7f}'
  }

  /** The dates of `datetime.min` and `datetime.max` as `repr` writes them. */
  lemma ReprDates()
    ensures DateString(Min.date) == "0001-01-01"
    ensures DateString(Max.date) == "9999-12-31"
    ensures Pad2(Max.time.hour) + ":" + Pad2(Max.time.minute) == "23:59"
  {
  }

  // ---------------------------------------------------------------------------
  // get_data

  /** Whether a stored row matches the query: no delay, the line and the stop asked for. */
  predicate Matches(row: Register, line: string, stop: int)
  {
    row.delayMinutes == 0 && row.line == line && row.stopId == stop
  }

  /** The stored rows the query selects, in storage order. */
  function Selected(rows: seq<Register>, line: string, stop: int): (s: seq<Register>)
    ensures |s| <= |rows|
    ensures forall k :: 0 <= k < |s| ==> s[k] in rows && Matches(s[k], line, stop)
    ensures forall k :: 0 <= k < |rows| && Matches(rows[k], line, stop) ==> rows[k] in s
  {
    if rows == [] then []
    else
      var n := |rows| - 1;
      Selected(rows[..n], line, stop) + if Matches(rows[n], line, stop) then [rows[n]] else []
  }

  /**
   * Selection keeps storage order: selecting from two runs of rows is selecting
   * from each and concatenating.
   */
  lemma {:induction false} SelectedAppend(a: seq<Register>, b: seq<Register>, line: string, stop: int)
    ensures Selected(a + b, line, stop) == Selected(a, line, stop) + Selected(b, line, stop)
    decreases |b|
  {
    if b == [] {
      assert a + b == a;
    } else {
      var n := |b| - 1;
      assert (a + b)[..|a + b| - 1] == a + b[..n];
      assert (a + b)[|a + b| - 1] == b[n];
      SelectedAppend(a, b[..n], line, stop);
    }
  }

  /** Python's truth value of `n`. */
  predicate Truthy(v: PyValue)
  {
    match v
    case PyNone => false
    case PyInt(i) => i != 0
    case PyStr(s) => s != ""
  }

  /**
   * The row cap of the query: none when `n` is falsy or, as SQLite reads
   * `limit`, negative; the error of `int(n)` otherwise.
   */
  function Cap(n: PyValue): (r: Result<Option<nat>, PyError>)
    ensures !Truthy(n) ==> r == Ok(None)
    ensures n.PyInt? && n.i > 0 ==> r == Ok(Some(n.i))
  {
    if !Truthy(n) then Ok(None)
    else
      var k :- Int(n);
      Ok(if k < 0 then None else Some(k))
  }

  /** `BSRegister(*row)` for each selected `(line, actual_datetime)`, stopping at the first error. */
  function Build(rows: seq<Register>): (r: Result<seq<BSRegister>, PyError>)
    ensures r.Ok? ==> |r.value| == |rows|
    ensures r.Ok? ==> forall k :: 0 <= k < |rows| ==> Normal(r.value[k]) && r.value[k].line == rows[k].line
    ensures r.Ok? ==> forall k :: 0 <= k < |rows| ==>
      (ParseDateTime(rows[k].actualDatetime).Ok? && r.value[k].moment == Truncate(ParseDateTime(rows[k].actualDatetime).value))
    ensures r.Ok? <==> forall k :: 0 <= k < |rows| ==> ParseDateTime(rows[k].actualDatetime).Ok?
  {
    if rows == [] then Ok([])
    else
      var n := |rows| - 1;
      var front := Build(rows[..n]);
      var last := NewBSRegister(PyStr(rows[n].line), MomentText(rows[n].actualDatetime));
      if front.Err? then Err(front.error)
      else if last.Err? then Err(last.error)
      else Ok(front.value + [last.value])
  }

  /**
   * `DBConnection.get_data(line, stop_id, n)` over the rows of the table in
   * storage order: `str(line)`, `int(stop_id)` and `int(n)` in that order,
   * then the selected rows, at most `n` of them, as registers.
   */
  function GetData(rows: seq<Register>, line: PyValue, stopId: PyValue, n: PyValue): (r: Result<seq<BSRegister>, PyError>)
    ensures Int(stopId).Err? ==> r == Err(Int(stopId).error)
    ensures Int(stopId).Ok? && Cap(n).Err? ==> r == Err(Cap(n).error)
    ensures r.Ok? ==> forall k :: 0 <= k < |r.value| ==> r.value[k].line == Str(line)
  {
    var stop :- Int(stopId);
    var cap :- Cap(n);
    Build(Limit(Selected(rows, Str(line), stop), cap))
  }

  /** The first `cap` elements of `s`, or all of them when there is no cap (`limit n`). */
  function Limit<T>(s: seq<T>, cap: Option<nat>): (r: seq<T>)
    ensures |r| == if cap.Some? && cap.value < |s| then cap.value else |s|
    ensures r == s[..|r|]
  {
    if cap.Some? && cap.value < |s| then s[..cap.value] else s
  }

  /**
   * What `get_data` returns: the first selected rows in storage order, each as
   * a register of the line asked for at that row's truncated datetime; all of
   * them when `n` is falsy, no more than a positive `n`.
   */
  lemma GetDataResult(rows: seq<Register>, line: PyValue, stop: int, n: PyValue)
    requires GetData(rows, line, PyInt(stop), n).Ok?
    ensures var got := GetData(rows, line, PyInt(stop), n).value;
      var selected := Selected(rows, Str(line), stop);
      (forall k :: 0 <= k < |got| ==> got[k].line == Str(line) && Normal(got[k]))
      && (forall k :: 0 <= k < |got| ==> (k < |selected| && ParseDateTime(selected[k].actualDatetime).Ok?
            && got[k].moment == Truncate(ParseDateTime(selected[k].actualDatetime).value)))
      && (!Truthy(n) ==> |got| == |selected|)
      && (n.PyInt? && n.i > 0 ==> |got| == if n.i < |selected| then n.i else |selected|)
  {
    assert Int(PyInt(stop)) == Ok(stop);
    var cap := Cap(n).value;
    var selected := Selected(rows, Str(line), stop);
    var taken := Limit(selected, cap);
    var got := Build(taken).value;
    assert GetData(rows, line, PyInt(stop), n) == Build(taken);
    forall k | 0 <= k < |got|
      ensures got[k].line == Str(line) && Normal(got[k])
      ensures k < |selected| && ParseDateTime(selected[k].actualDatetime).Ok?
      ensures got[k].moment == Truncate(ParseDateTime(selected[k].actualDatetime).value)
    {
      assert taken[k] in selected && taken[k] == selected[k];
    }
  }

  /** Once `stop_id` and `n` convert, `get_data` builds registers from the capped selection. */
  lemma GetDataIsBuild(rows: seq<Register>, line: PyValue, stop: int, n: PyValue)
    requires Cap(n).Ok?
    ensures GetData(rows, line, PyInt(stop), n) == Build(Limit(Selected(rows, Str(line), stop), Cap(n).value))
  {
    assert Int(PyInt(stop)) == Ok(stop);
  }

  /**
   * When `get_data` returns: `n` converts, and every selected row within the
   * cap has a datetime `strptime` accepts.
   */
  lemma GetDataSucceeds(rows: seq<Register>, line: PyValue, stop: int, n: PyValue)
    ensures var selected := Selected(rows, Str(line), stop);
      GetData(rows, line, PyInt(stop), n).Ok?
      <==> Cap(n).Ok? && forall k :: (0 <= k < |selected| && (Cap(n).value.None? || k < Cap(n).value.value))
                                    ==> ParseDateTime(selected[k].actualDatetime).Ok?
  {
    if Cap(n).Ok? {
      GetDataIsBuild(rows, line, stop, n);
      LimitParses(Selected(rows, Str(line), stop), Cap(n).value);
    } else {
      assert Int(PyInt(stop)) == Ok(stop);
    }
  }

  /** Once `n` converts, the only error `get_data` raises is the `ValueError` of `BSRegister`'s constructor. */
  lemma GetDataError(rows: seq<Register>, line: PyValue, stop: int, n: PyValue)
    requires Cap(n).Ok?
    ensures GetData(rows, line, PyInt(stop), n).Err? ==> GetData(rows, line, PyInt(stop), n).error == ValueError
  {
    GetDataIsBuild(rows, line, stop, n);
    BuildError(Limit(Selected(rows, Str(line), stop), Cap(n).value));
  }

  /** `get_data` returns whenever `n` converts and every matching row of the table parses. */
  lemma GetDataWhenAllParse(rows: seq<Register>, line: PyValue, stop: int, n: PyValue)
    requires Cap(n).Ok?
    requires forall k :: (0 <= k < |rows| && Matches(rows[k], Str(line), stop)) ==> ParseDateTime(rows[k].actualDatetime).Ok?
    ensures GetData(rows, line, PyInt(stop), n).Ok?
  {
    var selected := Selected(rows, Str(line), stop);
    forall k | 0 <= k < |selected|
      ensures ParseDateTime(selected[k].actualDatetime).Ok?
    {
      var j :| 0 <= j < |rows| && rows[j] == selected[k];
    }
    GetDataSucceeds(rows, line, stop, n);
  }

  /** Every row within the cap parses exactly when every row of the limited list does. */
  lemma LimitParses(selected: seq<Register>, cap: Option<nat>)
    ensures (forall k :: 0 <= k < |Limit(selected, cap)| ==> ParseDateTime(Limit(selected, cap)[k].actualDatetime).Ok?)
            <==> (forall k :: (0 <= k < |selected| && (cap.None? || k < cap.value))
                             ==> ParseDateTime(selected[k].actualDatetime).Ok?)
  {
    var taken := Limit(selected, cap);
    forall k | 0 <= k < |taken|
      ensures taken[k] == selected[k]
    {
    }
  }

  /** Building fails only with the `ValueError` of a datetime that does not parse. */
  lemma {:induction false} BuildError(rows: seq<Register>)
    ensures Build(rows).Err? ==> Build(rows).error == ValueError
  {
    if rows != [] {
      BuildError(rows[..|rows| - 1]);
    }
  }

  /** Asking for no limit and asking for `n = 0` give the same answer. */
  lemma GetDataZeroIsNone(rows: seq<Register>, line: PyValue, stopId: PyValue)
    ensures GetData(rows, line, stopId, PyInt(0)) == GetData(rows, line, stopId, PyNone)
  {
  }
}
