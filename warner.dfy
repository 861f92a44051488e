/**
 * `warner.py`: the stop and lines watched for each choice, and the message
 * listing when each bus of the collected registers will arrive.
 */
module Warner {
  import opened Wrappers
  import opened Builtins
  import opened DateTimes
  import opened Registers
  import opened Scraper

  /** The `RuntimeError` raised for a choice that is neither of the two known ones. */
  datatype ChoiceError = InvalidOption(choice: string)

  /** The stop number and `lines` argument passed to `analyse_stop` for a choice. */
  function StopFor(choice: string): (r: Result<(int, LinesArg), ChoiceError>)
    ensures r.Ok? <==> choice == "GAMAZO" || choice == "CLINICO"
    ensures r.Err? ==> r.error == InvalidOption(choice)
  {
    if choice == "GAMAZO" then Ok((686, OneInt(2)))
    else if choice == "CLINICO" then Ok((833, Many([PyInt(2), PyInt(8)])))
    else Err(InvalidOption(choice))
  }

  /** The registers the warner gets for a choice, from the rows of the stop's page read at `clock`. */
  function Watched(choice: string, rows: seq<seq<string>>, clock: seq<DateTime>): (r: Result<seq<Register>, ChoiceError>)
    requires |clock| == |rows| && AllValid(clock)
    ensures r.Ok? <==> choice == "GAMAZO" || choice == "CLINICO"
  {
    var (stop, lines) :- StopFor(choice);
    Ok(Analysed(rows, clock, stop, NormaliseLines(lines)))
  }

  /**
   * `GAMAZO` watches line 2 at stop 686 and `CLINICO` lines 2 and 8 at stop
   * 833: every register the warner receives is of that stop and one of those
   * lines.
   */
  lemma WatchedLines(choice: string, rows: seq<seq<string>>, clock: seq<DateTime>, r: Register)
    requires |clock| == |rows| && AllValid(clock)
    requires Watched(choice, rows, clock).Ok? && r in Watched(choice, rows, clock).value
    ensures choice == "GAMAZO" ==> r.stopId == 686 && r.line == "2"
    ensures choice == "CLINICO" ==> r.stopId == 833 && (r.line == "2" || r.line == "8")
  {
    var (stop, lines) := StopFor(choice).value;
    AnalysedRegisters(rows, clock, stop, lines, r);
    assert IntToString(2) == "2" && IntToString(8) == "8";
    if choice == "CLINICO" {
      assert Str(PyInt(2)) == "2" && Str(PyInt(8)) == "8";
    }
  }

  // ---------------------------------------------------------------------------
  // Arrival times

  const MinutesPerDay := 1440

  /** The minute count of `datetime.max`. */
  const LastMinute := 5258964959

  lemma LastMinuteOfMax()
    ensures EpochMinutes(Max) == LastMinute
  {
    assert DaysBeforeYear(9999) == 3651694;
  }

  /** `ValueError` from `strptime`, or `OverflowError` from adding the delay. */
  datatype MessageError = BadDatetime | OutOfRange

  /** The minute of the day, counted from midnight, of a time. */
  function MinuteOfDay(t: Time): int
  {
    t.hour * 60 + t.minute
  }

  /**
   * `(observed + timedelta(seconds=delay * 60)).time()`: the sum must stay
   * between `datetime.min` and `datetime.max`, and only its time of day is
   * kept, so the minutes wrap past midnight.
   */
  function Arrival(observed: DateTime, delay: int): (r: Result<Time, MessageError>)
    requires Valid(observed) && observed.time.microsecond == 0
    ensures r.Ok? <==> 0 <= EpochMinutes(observed) + delay <= LastMinute
    ensures r.Ok? ==> ValidTime(r.value) && r.value.second == observed.time.second
  {
    if !(0 <= EpochMinutes(observed) + delay <= LastMinute) then Err(OutOfRange)
    else
      var m := (MinuteOfDay(observed.time) + delay) % MinutesPerDay;
      Ok(Time(m / 60, m % 60, observed.time.second, 0))
  }

  /** Adding whole days to a minute count does not change its minute of the day. */
  lemma ModDays(days: int, x: int)
    ensures (days * MinutesPerDay + x) % MinutesPerDay == x % MinutesPerDay
  {
    var q, r := x / MinutesPerDay, x % MinutesPerDay;
    assert days * MinutesPerDay + x == (days + q) * MinutesPerDay + r;
  }

  /**
   * The arrival is the time of day of the observed datetime moved on by the
   * delay: its minute of the day is that of the sum's minute count.
   */
  lemma ArrivalIsTimeOfSum(observed: DateTime, delay: int)
    requires Valid(observed) && observed.time.microsecond == 0
    requires 0 <= EpochMinutes(observed) + delay <= LastMinute
    ensures MinuteOfDay(Arrival(observed, delay).value) == (EpochMinutes(observed) + delay) % MinutesPerDay
  {
    var m := (MinuteOfDay(observed.time) + delay) % MinutesPerDay;
    assert MinuteOfDay(Arrival(observed, delay).value) == m;
    ModDays(Ordinal(observed.date) - 1, MinuteOfDay(observed.time) + delay);
  }

  /** With no delay the arrival is the observed time. */
  lemma ArrivalWithoutDelay(observed: DateTime)
    requires Valid(observed) && observed.time.microsecond == 0
    ensures Arrival(observed, 0) == Ok(observed.time)
  {
    var m := MinuteOfDay(observed.time);
    assert m % MinutesPerDay == m;
  }

  /** A delay a whole day longer gives the same time of day. */
  lemma ArrivalWrapsDaily(observed: DateTime, delay: int)
    requires Valid(observed) && observed.time.microsecond == 0
    requires Arrival(observed, delay).Ok? && Arrival(observed, delay + MinutesPerDay).Ok?
    ensures Arrival(observed, delay + MinutesPerDay) == Arrival(observed, delay)
  {
    ModDays(1, MinuteOfDay(observed.time) + delay);
  }

  // ---------------------------------------------------------------------------
  // The message

  /** `f'{line} llegará a las {HH:MM} ({delay} mins)\n'`. */
  function ArrivalLine(line: string, arrival: Time, delay: int): (s: string)
    requires ValidTime(arrival)
    ensures |s| > |line| + 2 && s[..|line|] == line && s[|s| - 2..] == ")\n"
  {
    line + " llegará a las " + Pad2(arrival.hour) + ":" + Pad2(arrival.minute) + " (" + IntToString(delay) + " mins)\n"
  }

  /** The line one register adds to the message, or what is raised for it. */
  function RegisterLine(r: Register): (t: Result<string, MessageError>)
    ensures t.Ok? ==> |t.value| > |r.line| + 2 && t.value[..|r.line|] == r.line && t.value[|t.value| - 2..] == ")\n"
    ensures t.Err? ==> (t.error == BadDatetime <==> ParseDateTime(r.actualDatetime).Err?)
  {
    match ParseDateTime(r.actualDatetime)
    case Err(_) => Err(BadDatetime)
    case Ok(observed) =>
      var arrival :- Arrival(observed, r.delayMinutes);
      Ok(ArrivalLine(r.line, arrival, r.delayMinutes))
  }

  /**
   * Which of the three outcomes a register has: `strptime` rejecting its
   * datetime raises `BadDatetime`; otherwise the line is written exactly when
   * the arrival stays in range, and `OutOfRange` is raised when it does not.
   */
  lemma RegisterLineOutcome(r: Register)
    ensures ParseDateTime(r.actualDatetime).Err? ==> RegisterLine(r) == Err(BadDatetime)
    ensures RegisterLine(r).Ok?
            <==> ParseDateTime(r.actualDatetime).Ok? && Arrival(ParseDateTime(r.actualDatetime).value, r.delayMinutes).Ok?
    ensures (ParseDateTime(r.actualDatetime).Ok? && Arrival(ParseDateTime(r.actualDatetime).value, r.delayMinutes).Err?)
            ==> RegisterLine(r) == Err(OutOfRange)
    ensures RegisterLine(r).Ok? ==>
      RegisterLine(r).value == ArrivalLine(r.line, Arrival(ParseDateTime(r.actualDatetime).value, r.delayMinutes).value, r.delayMinutes)
  {
  }

  /** What each register gives, in order. */
  function LineResults(data: seq<Register>): (r: seq<Result<string, MessageError>>)
    ensures |r| == |data|
    ensures forall k :: 0 <= k < |data| ==> r[k] == RegisterLine(data[k])
  {
    MapSeq(RegisterLine, data)
  }

  function MapSeq<A, B>(f: A -> B, s: seq<A>): (r: seq<B>)
    ensures |r| == |s|
    ensures forall k :: 0 <= k < |s| ==> r[k] == f(s[k])
  {
    seq(|s|, k requires 0 <= k < |s| => f(s[k]))
  }

  lemma MapSeqAppend<A, B>(f: A -> B, a: seq<A>, b: seq<A>)
    ensures MapSeq(f, a + b) == MapSeq(f, a) + MapSeq(f, b)
  {
    var la, lb, lab := MapSeq(f, a), MapSeq(f, b), MapSeq(f, a + b);
    forall k | 0 <= k < |lab|
      ensures lab[k] == (la + lb)[k]
    {
      if k < |a| {
        assert (a + b)[k] == a[k];
      } else {
        assert (a + b)[k] == b[k - |a|];
      }
    }
  }

  /** The lines joined in order, or the first failure. */
  function Gathered(results: seq<Result<string, MessageError>>): Result<string, MessageError>
  {
    if results == [] then Ok("")
    else
      var n := |results| - 1;
      var before :- Gathered(results[..n]);
      var line :- results[n];
      Ok(before + line)
  }

  /** The text the loop builds before the final strip. */
  function Lines(data: seq<Register>): Result<string, MessageError>
  {
    Gathered(LineResults(data))
  }

  /** The message sent: the lines, stripped of surrounding whitespace. */
  function Message(data: seq<Register>): Result<string, MessageError>
  {
    var text :- Lines(data);
    Ok(Strip(text))
  }

  /** The `for` loop of the warner, then `message.strip()`. */
  method BuildMessage(data: seq<Register>) returns (r: Result<string, MessageError>)
    ensures r == Message(data)
  {
    ghost var results := LineResults(data);
    var message := "";
    for k := 0 to |data|
      invariant Gathered(results[..k]) == Ok(message)
    {
      assert results[..k + 1][..k] == results[..k];
      var register := data[k];
      var observed := ParseDateTime(register.actualDatetime);
      if observed.Err? {
        GatheredFailure(results, k + 1);
        return Err(BadDatetime);
      }
      var arrival := Arrival(observed.value, register.delayMinutes);
      if arrival.Err? {
        GatheredFailure(results, k + 1);
        return Err(OutOfRange);
      }
      message := message + ArrivalLine(register.line, arrival.value, register.delayMinutes);
    }
    assert results[..|data|] == results;
    r := Ok(Strip(message));
  }

  /** Once a prefix fails, the whole list fails with the same error. */
  lemma {:induction false} GatheredFailure(results: seq<Result<string, MessageError>>, k: nat)
    requires k <= |results| && Gathered(results[..k]).Err?
    ensures Gathered(results) == Err(Gathered(results[..k]).error)
    decreases |results| - k
  {
    if k == |results| {
      assert results[..k] == results;
    } else {
      assert results[..k + 1][..k] == results[..k];
      GatheredFailure(results, k + 1);
    }
  }

  /** Gathering a concatenation gathers each part, in order. */
  lemma {:induction false} GatheredAppend(a: seq<Result<string, MessageError>>, b: seq<Result<string, MessageError>>)
    requires Gathered(a).Ok? && Gathered(b).Ok?
    ensures Gathered(a + b) == Ok(Gathered(a).value + Gathered(b).value)
  {
    if b == [] {
      assert a + b == a;
      assert Gathered(a).value + "" == Gathered(a).value;
    } else {
      var n := |b| - 1;
      assert (a + b)[..|a + b| - 1] == a + b[..n];
      assert (a + b)[|a + b| - 1] == b[n];
      assert Gathered(b[..n]).Ok? && b[n].Ok?;
      GatheredAppend(a, b[..n]);
      var ga, gb := Gathered(a).value, Gathered(b[..n]).value;
      assert Gathered(a + b) == Ok((ga + gb) + b[n].value);
      assert (ga + gb) + b[n].value == ga + (gb + b[n].value);
    }
  }

  /** The lines of a concatenation are the lines of each part, in order. */
  lemma LinesAppend(a: seq<Register>, b: seq<Register>)
    requires Lines(a).Ok? && Lines(b).Ok?
    ensures Lines(a + b) == Ok(Lines(a).value + Lines(b).value)
  {
    MapSeqAppend(RegisterLine, a, b);
    GatheredAppend(LineResults(a), LineResults(b));
  }

  /** No registers, no message. */
  lemma MessageOfNothing()
    ensures Message([]) == Ok("")
  {
    assert LineResults([]) == [];
    assert Lines([]) == Ok("");
    assert StripLeft("") == "";
    assert Strip("") == "";
  }

  /** The message neither starts nor ends with whitespace: in particular the last line loses its newline. */
  lemma MessageTrimmed(data: seq<Register>)
    requires Message(data).Ok?
    ensures var m := Message(data).value;
      m == [] || (!IsSpace(m[0]) && !IsSpace(m[|m| - 1]))
  {
    var text := Lines(data).value;
    var left := StripLeft(text);
    var m := StripRight(left);
    if m != [] {
      assert m == left[..|m|];
    }
  }

  /**
   * A single register whose line does not begin with whitespace gives its
   * arrival line without the final newline.
   */
  lemma MessageOfOne(r: Register, t: string)
    requires RegisterLine(r) == Ok(t) && r.line != [] && !IsSpace(r.line[0])
    ensures t[|t| - 1] == '\n' && Message([r]) == Ok(t[..|t| - 1])
  {
    LinesOfOne(r);
    LineShape(t, r.line);
    MessageOfFinalLine([r], t);
  }

  /** A text made of `line`, then anything, then `)\n`, starts with the line's first character. */
  lemma LineShape(t: string, line: string)
    requires |t| > |line| + 2 && t[..|line|] == line && t[|t| - 2..] == ")\n" && line != []
    ensures t[0] == line[0] && t[|t| - 2] == ')' && t[|t| - 1] == '\n'
  {
    assert t[|t| - 2..][1] == t[|t| - 1];
    assert t[|t| - 2..][0] == t[|t| - 2];
    assert t[..|line|][0] == t[0];
  }

  /** A text that starts with a non-space and ends with `)\n` is sent without its newline. */
  lemma MessageOfFinalLine(data: seq<Register>, text: string)
    requires Lines(data) == Ok(text)
    requires |text| >= 2 && !IsSpace(text[0]) && text[|text| - 2] == ')' && text[|text| - 1] == '\n'
    ensures Message(data) == Ok(text[..|text| - 1])
  {
    StripFinalNewline(text);
  }

  /** The text for a single register is its line, or its failure. */
  lemma LinesOfOne(r: Register)
    ensures Lines([r]) == RegisterLine(r)
  {
    assert LineResults([r]) == [RegisterLine(r)];
    GatheredOne(RegisterLine(r));
  }

  lemma GatheredOne(x: Result<string, MessageError>)
    ensures Gathered([x]) == x
  {
    assert [x][..0] == [];
    if x.Ok? {
      assert "" + x.value == x.value;
    }
  }

  /** Stripping a text that starts with a non-space and ends with `)\n` drops just the newline. */
  lemma StripFinalNewline(t: string)
    requires |t| >= 2 && !IsSpace(t[0]) && t[|t| - 2] == ')' && t[|t| - 1] == '\n'
    ensures Strip(t) == t[..|t| - 1]
  {
    var body := t[..|t| - 1];
    assert StripLeft(t) == t;
    assert StripRight(t) == StripRight(body);
    assert body[|body| - 1] == ')';
    assert StripRight(body) == body;
  }
}
