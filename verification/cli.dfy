/** The logger's command line: which command the arguments select, how the
    optional arguments after systolic and diastolic are sorted into heart
    rate, AM/PM and date, which date a date argument denotes, and how many
    readings the view command lists. */
module Cli {
  import opened JsStrings
  import opened JsNumbers
  import opened Records
  import opened Store

  // ---------------------------------------------------------------------
  // Token shapes

  function UpperChar(c: char): char {
    if 'a' <= c <= 'z' then ((c as int) - 32) as char else c
  }

  /** String.prototype.toUpperCase on ASCII letters; no other character
      upper-cases to A, M or P, so the AM/PM test below is exact. */
  function Upper(s: string): (u: string)
    ensures |u| == |s|
    ensures forall i :: 0 <= i < |s| ==> u[i] == UpperChar(s[i])
  {
    if |s| == 0 then "" else [UpperChar(s[0])] + Upper(s[1..])
  }

  /** `arg.toUpperCase() === 'AM' || arg.toUpperCase() === 'PM'`. */
  predicate IsHalfDay(arg: string) {
    Upper(arg) == "AM" || Upper(arg) == "PM"
  }

  /** `!isNaN(parseInt(arg))`. */
  predicate IsNumeric(arg: string) {
    ParseInt(arg).Int?
  }

  /** `/^\d{4}-\d{2}-\d{2}$/`: four digits, dash, two digits, dash, two
      digits, and nothing else. */
  predicate IsIsoDate(s: string) {
    && |s| == 10
    && IsDigit(s[0]) && IsDigit(s[1]) && IsDigit(s[2]) && IsDigit(s[3])
    && s[4] == '-'
    && IsDigit(s[5]) && IsDigit(s[6])
    && s[7] == '-'
    && IsDigit(s[8]) && IsDigit(s[9])
  }

  /** A token the loop takes as the date argument. */
  predicate DateToken(arg: string) {
    !IsHalfDay(arg) && ((StartsWith(arg, '-') && IsNumeric(arg)) || IsIsoDate(arg))
  }

  /** A token the loop takes as the heart rate. */
  predicate RateToken(arg: string) {
    !IsHalfDay(arg) && !DateToken(arg) && IsNumeric(arg)
  }

  // ---------------------------------------------------------------------
  // Sorting the optional arguments

  /** The loop's three variables: `hr`, `time` and `dateArg`. */
  datatype Options = Options(hr: Option<string>, time: string, dateArg: Option<string>)

  const Defaults: Options := Options(None, "AM", None)

  /** One pass of the loop body: the first test the token passes decides
      which variable it sets; a token that passes none is ignored. */
  function Sniff(o: Options, arg: string): (r: Options)
    ensures IsHalfDay(arg) ==> r == o.(time := Upper(arg))
    ensures DateToken(arg) ==> r == o.(dateArg := Some(arg))
    ensures RateToken(arg) ==> r == o.(hr := Some(arg))
    ensures !IsHalfDay(arg) && !DateToken(arg) && !RateToken(arg) ==> r == o
  {
    if IsHalfDay(arg) then o.(time := Upper(arg))
    else if StartsWith(arg, '-') && IsNumeric(arg) then o.(dateArg := Some(arg))
    else if IsIsoDate(arg) then o.(dateArg := Some(arg))
    else if IsNumeric(arg) then o.(hr := Some(arg))
    else o
  }

  /** The loop over the arguments, first to last. */
  function SniffAll(o: Options, args: seq<string>): (r: Options)
    ensures (o.time == "AM" || o.time == "PM") ==> (r.time == "AM" || r.time == "PM")
    ensures r.dateArg == o.dateArg || (r.dateArg.Some? && DateToken(r.dateArg.value))
    ensures r.hr == o.hr || (r.hr.Some? && RateToken(r.hr.value))
    decreases |args|
  {
    if |args| == 0 then o else SniffAll(Sniff(o, args[0]), args[1..])
  }

  lemma {:induction false} SniffAllSnoc(o: Options, args: seq<string>)
    requires |args| > 0
    ensures SniffAll(o, args) == Sniff(SniffAll(o, args[..|args| - 1]), args[|args| - 1])
    decreases |args|
  {
    if |args| > 1 {
      SniffAllSnoc(Sniff(o, args[0]), args[1..]);
      assert args[1..][..|args| - 2] == args[..|args| - 1][1..];
    }
  }

  /** The upper-cased last AM/PM token, if any. */
  function LastTime(args: seq<string>): Option<string> {
    if |args| == 0 then None
    else if IsHalfDay(args[|args| - 1]) then Some(Upper(args[|args| - 1]))
    else LastTime(args[..|args| - 1])
  }

  /** The last date token, if any. */
  function LastDate(args: seq<string>): Option<string> {
    if |args| == 0 then None
    else if DateToken(args[|args| - 1]) then Some(args[|args| - 1])
    else LastDate(args[..|args| - 1])
  }

  /** The last heart-rate token, if any. */
  function LastRate(args: seq<string>): Option<string> {
    if |args| == 0 then None
    else if RateToken(args[|args| - 1]) then Some(args[|args| - 1])
    else LastRate(args[..|args| - 1])
  }

  function OrElse(x: Option<string>, d: Option<string>): Option<string> {
    if x.Some? then x else d
  }

  /** The loop's outcome read from the end: each variable holds the last
      token of its kind, and keeps its starting value when there is none.
      Later tokens override earlier ones, and tokens of no kind change
      nothing. */
  lemma {:induction false} SniffAllKeepsLastOfEachKind(o: Options, args: seq<string>)
    ensures SniffAll(o, args) == Options(
      OrElse(LastRate(args), o.hr),
      if LastTime(args).Some? then LastTime(args).value else o.time,
      OrElse(LastDate(args), o.dateArg))
  {
    if |args| > 0 {
      var init := args[..|args| - 1];
      SniffAllSnoc(o, args);
      SniffAllKeepsLastOfEachKind(o, init);
    }
  }

  /** A token of no kind is skipped. */
  lemma IgnoredTokenChangesNothing(o: Options, arg: string)
    requires !IsHalfDay(arg) && !IsNumeric(arg)
    ensures Sniff(o, arg) == o
  {
  }

  lemma DigitLeadIsNumeric(s: string)
    requires |s| > 0 && IsDigit(s[0])
    ensures IsNumeric(s)
  {
    SignOrDigitIsNotSpace(s[0]);
    assert DigitPrefix(s) != "";
  }

  /** An ISO-shaped token also parses as a number (parseInt reads its
      year), so it is the order of the tests that makes it a date rather
      than a heart rate. */
  lemma IsoTokenIsDate(o: Options, arg: string)
    requires IsIsoDate(arg)
    ensures IsNumeric(arg) && DateToken(arg) && !RateToken(arg)
    ensures Sniff(o, arg) == o.(dateArg := Some(arg))
  {
    DigitLeadIsNumeric(arg);
    assert |Upper(arg)| == 10;
  }

  /** The time the loop leaves is always AM or PM when it starts as one. */
  lemma {:induction false} SniffedTimeIsHalfDay(o: Options, args: seq<string>)
    requires o.time == "AM" || o.time == "PM"
    ensures SniffAll(o, args).time == "AM" || SniffAll(o, args).time == "PM"
    decreases |args|
  {
    if |args| > 0 {
      SniffedTimeIsHalfDay(Sniff(o, args[0]), args[1..]);
    }
  }

  /** Only a leading dash marks a day offset: a token such as `+3` is read
      as a heart rate. */
  lemma PlusNumberIsRate(o: Options, arg: string)
    requires |arg| >= 2 && arg[0] == '+' && IsDigit(arg[1])
    ensures RateToken(arg) && Sniff(o, arg) == o.(hr := Some(arg))
  {
    assert !IsHalfDay(arg) by {
      assert Upper(arg)[0] == '+';
      assert "AM"[0] == 'A' && "PM"[0] == 'P';
    }
    assert !IsIsoDate(arg) && !StartsWith(arg, '-');
    assert !IsSpace(arg[0]);
    assert DigitPrefix(arg[1..]) != "";
  }

  /** A dash followed by a digit is a day offset: the loop takes it as the
      date argument. */
  lemma DashNumberIsDate(o: Options, arg: string)
    requires |arg| >= 2 && arg[0] == '-' && IsDigit(arg[1])
    ensures DateToken(arg) && Sniff(o, arg) == o.(dateArg := Some(arg))
  {
    assert !IsHalfDay(arg) by {
      assert Upper(arg)[0] == '-';
      assert "AM"[0] == 'A' && "PM"[0] == 'P';
    }
    ParseIntOfMinus(arg);
  }

  /** A two-digit number is a heart-rate token. */
  lemma NumberIsRate(o: Options, arg: string)
    requires |arg| == 2 && IsDigit(arg[0]) && IsDigit(arg[1])
    ensures RateToken(arg) && Sniff(o, arg) == o.(hr := Some(arg))
  {
    DigitLeadIsNumeric(arg);
    DigitLeadIsNotHalfDay(arg);
    assert !IsIsoDate(arg) && !StartsWith(arg, '-');
  }

  lemma DigitLeadIsNotHalfDay(arg: string)
    requires |arg| > 0 && IsDigit(arg[0])
    ensures !IsHalfDay(arg)
  {
    assert Upper(arg)[0] == arg[0];
    assert "AM"[0] == 'A' && "PM"[0] == 'P';
  }

  // ---------------------------------------------------------------------
  // The date argument

  /** What parseDate does with its argument: today's date, today shifted by
      a number of days, or the argument itself. */
  datatype DateChoice = Today | DaysFromToday(offset: Num) | Given(date: string)

  /** parseDate: no argument gives today; an argument starting with `-` is
      a day offset read by parseInt; an ISO-shaped argument is returned as
      it is; anything else gives today. */
  function ParseDate(dateArg: Option<string>): (d: DateChoice)
    ensures d.Given? <==> dateArg.Some? && IsIsoDate(dateArg.value)
    ensures d.Given? ==> d.date == dateArg.value
    ensures d.DaysFromToday? <==> dateArg.Some? && StartsWith(dateArg.value, '-')
  {
    if dateArg.None? || dateArg.value == "" then Today
    else if StartsWith(dateArg.value, '-') then DaysFromToday(ParseInt(dateArg.value))
    else if IsIsoDate(dateArg.value) then Given(dateArg.value)
    else Today
  }

  /** Every date argument the loop keeps is understood: an ISO date is used
      as given and a dash token is a numeric offset, never the fallback to
      today. */
  lemma SniffedDateIsUnderstood(args: seq<string>)
    requires SniffAll(Defaults, args).dateArg.Some?
    ensures var d := ParseDate(SniffAll(Defaults, args).dateArg);
      d.Given? || (d.DaysFromToday? && d.offset.Int?)
  {
    SniffAllKeepsLastOfEachKind(Defaults, args);
    LastDateIsDateToken(args);
  }

  lemma {:induction false} LastDateIsDateToken(args: seq<string>)
    ensures LastDate(args).Some? ==> DateToken(LastDate(args).value)
  {
    if |args| > 0 && !DateToken(args[|args| - 1]) {
      LastDateIsDateToken(args[..|args| - 1]);
    }
  }

  /** The calendar date a choice denotes, given today's date and the date
      the offset leads to; both come from the clock. */
  function TargetDate(d: DateChoice, today: string, shifted: string): (date: string)
    ensures d.Today? ==> date == today
    ensures d.DaysFromToday? ==> date == shifted
    ensures d.Given? ==> date == d.date
  {
    match d
    case Today => today
    case DaysFromToday(_) => shifted
    case Given(s) => s
  }

  // ---------------------------------------------------------------------
  // The view command

  /** `parseInt(args[1]) || 10`: a missing, zero or non-numeric count is 10. */
  function ViewCount(arg: Option<string>): (n: int)
    ensures n != 0
    ensures arg.Some? && Truthy(ParseInt(arg.value)) ==> n == ParseInt(arg.value).n
    ensures arg.None? || !Truthy(ParseInt(arg.value)) ==> n == 10
  {
    var p := if arg.Some? then ParseInt(arg.value) else NaN;
    if Truthy(p) then p.n else 10
  }

  /** `data.slice(0, end)`: a negative end counts back from the end of the
      list. */
  function Slice(data: seq<Reading>, end: int): (r: seq<Reading>)
    ensures end >= 0 ==> |r| == if end < |data| then end else |data|
    ensures end < 0 ==> |r| == if |data| + end > 0 then |data| + end else 0
    ensures |r| <= |data| && r == data[..|r|]
  {
    var k := if end >= 0 then (if end < |data| then end else |data|)
             else (if |data| + end > 0 then |data| + end else 0);
    data[..k]
  }

  /** viewReadings: the first `count` readings, all of them when there are
      fewer, and none for an empty list. */
  function ViewReadings(data: seq<Reading>, count: int): (r: seq<Reading>)
    ensures count > 0 ==> |r| == if count < |data| then count else |data|
    ensures |r| <= |data|
    ensures forall k :: 0 <= k < |r| ==> r[k] == data[k]
  {
    Slice(data, count)
  }

  /** `--view` without a count lists the first ten readings. */
  lemma ViewDefaultsToTen(data: seq<Reading>)
    ensures ViewReadings(data, ViewCount(None)) == data[..if |data| < 10 then |data| else 10]
  {
  }

  /** `--view -3` leaves out the last three readings. */
  lemma NegativeCountDropsFromEnd(data: seq<Reading>, n: nat)
    requires n > 0
    ensures ViewReadings(data, -(n as int)) == data[..if |data| > n then |data| - n else 0]
  {
  }

  // ---------------------------------------------------------------------
  // The command

  datatype Command =
    | Help
    | View(count: int)
    | ShowStats
    | Add(sys: string, dia: string, hr: Option<string>, time: string, dateArg: Option<string>)
    | Fail(exitCode: int)

  /** The command the arguments select. Systolic and diastolic must both be
      present and non-empty; otherwise the logger exits with code 1. */
  function ParseCommand(args: seq<string>): (c: Command)
    ensures c == Help <==> |args| == 0 || args[0] == "--help" || args[0] == "-h"
    ensures c.View? <==> |args| > 0 && (args[0] == "--view" || args[0] == "-v")
    ensures c.View? ==> c.count == ViewCount(if |args| > 1 then Some(args[1]) else None)
    ensures c == ShowStats <==> |args| > 0 && (args[0] == "--stats" || args[0] == "-s")
    ensures c.Add? ==> |args| >= 2 && c.sys == args[0] && c.dia == args[1]
    ensures c.Add? ==> c.sys != "" && c.dia != "" && (c.time == "AM" || c.time == "PM")
    ensures c.Add? ==> Options(c.hr, c.time, c.dateArg) == SniffAll(Defaults, args[2..])
    ensures c.Fail? ==> c.exitCode == 1
    ensures c.View? ==> c.count != 0
  {
    if |args| == 0 || args[0] == "--help" || args[0] == "-h" then Help
    else if args[0] == "--view" || args[0] == "-v" then
      View(ViewCount(if |args| > 1 then Some(args[1]) else None))
    else if args[0] == "--stats" || args[0] == "-s" then ShowStats
    else if args[0] == "" || |args| < 2 || args[1] == "" then Fail(1)
    else
      SniffedTimeIsHalfDay(Defaults, args[2..]);
      var o := SniffAll(Defaults, args[2..]);
      Add(args[0], args[1], o.hr, o.time, o.dateArg)
  }

  predicate IsFlag(arg: string) {
    arg in {"--help", "-h", "--view", "-v", "--stats", "-s"}
  }

  /** Arguments that are not a command flag select the add command exactly
      when systolic and diastolic are both given and non-empty; otherwise
      they are an error with exit code 1. */
  lemma AddNeedsBothPressures(args: seq<string>)
    requires |args| > 0 && !IsFlag(args[0])
    ensures ParseCommand(args).Add? <==> |args| >= 2 && args[0] != "" && args[1] != ""
    ensures !ParseCommand(args).Add? ==> ParseCommand(args) == Fail(1)
  {
  }

  /** The result of running the logger on the loaded list: the list it
      saves and its exit code. */
  datatype Outcome = Outcome(data: seq<Reading>, exitCode: int)

  /** One run of the logger. `now` is Date.now(); `today` and `shifted` are
      the dates the clock gives for today and for today plus the offset. */
  function RunLogger(data: seq<Reading>, args: seq<string>, now: int,
                     today: string, shifted: string): (out: Outcome)
    ensures !ParseCommand(args).Add? ==> out.data == data
    ensures out.exitCode == (if ParseCommand(args).Fail? then 1 else 0)
    ensures ParseCommand(args).Add? ==> Sorted(out.data)
    ensures var c := ParseCommand(args);
      c.Add? ==> out.data == AddReading(data, c.sys, c.dia, c.hr, c.time,
                                        TargetDate(ParseDate(c.dateArg), today, shifted), now)
    ensures var c := ParseCommand(args);
      c.Add? ==> LoggerEntry(c.sys, c.dia, c.hr, c.time,
                             TargetDate(ParseDate(c.dateArg), today, shifted), now) in multiset(out.data)
  {
    match ParseCommand(args)
    case Add(sys, dia, hr, time, dateArg) =>
      var date := TargetDate(ParseDate(dateArg), today, shifted);
      Outcome(AddReading(data, sys, dia, hr, time, date, now), 0)
    case Fail(code) => Outcome(data, code)
    case _ => Outcome(data, 0)
  }

  /** Every reading the logger stores is an AM or a PM reading, so a list of
      AM/PM readings stays one. */
  lemma RunKeepsDayHalves(data: seq<Reading>, args: seq<string>, now: int,
                          today: string, shifted: string)
    requires DayHalves(data)
    ensures DayHalves(RunLogger(data, args, now, today, shifted).data)
  {
    var c := ParseCommand(args);
    if c.Add? {
      var date := TargetDate(ParseDate(c.dateArg), today, shifted);
      AddKeepsDayHalves(data, c.sys, c.dia, c.hr, c.time, date, now);
    }
  }

  /** The logger keeps a slot-unique list slot-unique. */
  lemma RunKeepsSlotsUnique(data: seq<Reading>, args: seq<string>, now: int,
                            today: string, shifted: string)
    requires SlotUnique(data)
    ensures SlotUnique(RunLogger(data, args, now, today, shifted).data)
  {
    var c := ParseCommand(args);
    if c.Add? {
      var date := TargetDate(ParseDate(c.dateArg), today, shifted);
      AddKeepsSlotsUnique(data, c.sys, c.dia, c.hr, c.time, date, now);
    }
  }
}
